/** Routing of a verified technician's messages (index.js, `handleInteractiveMessage`
    and the handlers it calls): the two action tables, the order-number reply,
    the per-status option buttons, the order list rows and the grouping of
    order listings into sections. Everything fetched over HTTP is an input. */
module Replies {
  import opened Wrappers
  import opened Text
  import opened CorrelationId
  import opened OrderStatus
  import opened ReplyTables
  import DocType

  /** An order as the orders API returns it, reduced to the fields the bot reads;
      `recordId` is `_id` and `currentStatus` is `orderStatus.currentStatus`. */
  datatype Order = Order(
    orderId: Option<string>,
    recordId: Option<string>,
    currentStatus: Option<string>,
    category: Option<string>,
    subCategory: Option<string>,
    brand: Option<string>,
    warranty: Option<string>,
    serviceComment: Option<string>)

  /** A reply button, or a list row with its description. */
  datatype Button = Button(id: string, title: string)
  datatype Row = Row(id: string, title: Option<string>, description: string)

  /** What `updateOrderStatus` is called with. */
  datatype StatusUpdate = StatusUpdate(
    orderId: Option<string>, recordId: Option<string>, lastStatus: Option<string>, status: MyOrderStatus)

  /** The handler a reply is dispatched to; `Thrown` is an exception that
      reaches the webhook's catch ("unable to process"). */
  datatype Action =
    | PostStatus(update: StatusUpdate)
    | AskForDocuments(buttons: seq<Button>)
    | ListOrders(status: string, title: Option<string>)
    | ShowOrder(recordId: Option<string>, summaryOnly: bool)
    | CannotProcess
    | Thrown

  /** The single button of the "Upload Document" prompt (title as spelled in the source). */
  const VerifyDocumentButton := Button(ChoiceId("verifyDocument"), "Verify DOduments")

  const OrderPrefix := "srvz-ord-"

  /** The SRVZ-ORD- pattern, case-insensitive, with nine or ten digits; an undefined title is matched as
      the text "undefined", which does not match. */
  predicate IsOrderNumber(title: Option<string>) {
    title.Some? && |title.value| >= 9
    && ToLower(title.value[..9]) == OrderPrefix
    && (|title.value| == 18 || |title.value| == 19)
    && AllDigits(title.value[9..])
  }

  /** A title is an order number exactly when it is the prefix "srvz-ord-", in
      any ASCII case, followed by nine or ten digits; an undefined title never is. */
  lemma OrderNumberForm(title: Option<string>)
    ensures IsOrderNumber(title) <==>
      title.Some? && exists p, d :: title.value == p + d && ToLower(p) == OrderPrefix && 9 <= |d| <= 10 && AllDigits(d)
  {
    if title.Some? {
      var t := title.value;
      if IsOrderNumber(title) {
        assert t == t[..9] + t[9..];
      }
      if exists p, d :: t == p + d && ToLower(p) == OrderPrefix && 9 <= |d| <= 10 && AllDigits(d) {
        var p, d :| t == p + d && ToLower(p) == OrderPrefix && 9 <= |d| <= 10 && AllDigits(d);
        assert |p| == 9;
        assert t[..9] == p && t[9..] == d;
      }
    }
  }

  /** Upper, lower and mixed case prefixes match, and so do ten digits; eight
      digits or a missing prefix do not. */
  lemma OrderNumberExamples()
    ensures IsOrderNumber(Some("SRVZ-ORD-123456789"))
    ensures IsOrderNumber(Some("srvz-Ord-1234567890"))
    ensures !IsOrderNumber(Some("SRVZ-ORD-12345678"))
    ensures !IsOrderNumber(Some("123456789012345678"))
  {
    OrderNumberUpper();
    OrderNumberMixed();
    var t := "123456789012345678";
    assert ToLower(t[..9])[0] == '1';
  }

  lemma OrderNumberUpper()
    ensures IsOrderNumber(Some("SRVZ-ORD-123456789"))
  {
    var t := "SRVZ-ORD-123456789";
    var l := ToLower(t[..9]);
    assert l[0] == 's' && l[1] == 'r' && l[2] == 'v' && l[3] == 'z' && l[4] == '-';
    assert l[5] == 'o' && l[6] == 'r' && l[7] == 'd' && l[8] == '-';
    assert l == OrderPrefix;
  }

  lemma OrderNumberMixed()
    ensures IsOrderNumber(Some("srvz-Ord-1234567890"))
  {
    var t := "srvz-Ord-1234567890";
    var l := ToLower(t[..9]);
    assert l[0] == 's' && l[1] == 'r' && l[2] == 'v' && l[3] == 'z' && l[4] == '-';
    assert l[5] == 'o' && l[6] == 'r' && l[7] == 'd' && l[8] == '-';
    assert l == OrderPrefix;
  }

  /** `replyId.orderStatus` used as a table key; an absent one is looked up
      as "undefined", which neither table has. */
  function ActionKey(reply: map<string, string>): string {
    if "orderStatus" in reply then reply["orderStatus"] else "undefined"
  }

  /** The reply's action key names an entry of one of the two tables. */
  predicate IsRouted(reply: map<string, string>) {
    IsAction(ActionKey(reply))
  }

  /** `handleInteractiveMessage`: the update table first, then the menu table,
      then the order-number title, then the fallback text. */
  function Dispatch(reply: map<string, string>, title: Option<string>): (a: Action)
    ensures !a.Thrown?
    ensures a.PostStatus? <==> ActionKey(reply) in UpdateStatusMap
    ensures a.PostStatus? ==> Some(a.update.status) == StatusTarget(ActionKey(reply))
                              && a.update.orderId == Get(reply, "orderId") && a.update.recordId == Get(reply, "id")
                              && a.update.lastStatus == Get(reply, "currentStatus")
    ensures a.AskForDocuments? <==> ActionKey(reply) == "uploadDocument"
    ensures a.AskForDocuments? ==> a.buttons == [VerifyDocumentButton]
    ensures a.ListOrders? <==> ActionKey(reply) in OrderStatusMap && ActionKey(reply) != "uploadDocument"
    ensures a.ListOrders? ==> a.status == OrderStatusMap[ActionKey(reply)] && a.title == title
    ensures a.ShowOrder? <==> !IsRouted(reply) && IsOrderNumber(title)
    ensures a.ShowOrder? ==> a.recordId == Get(reply, "id")
                             && (a.summaryOnly <==> Get(reply, "orderStatus") == Some(TechnicianWorkCompleted.statusCode))
    ensures a.CannotProcess? <==> !IsRouted(reply) && !IsOrderNumber(title)
  {
    var key := ActionKey(reply);
    MenuTable(key);
    if key in UpdateStatusMap then
      UpdateTarget(key);
      match FromStatusCode(UpdateStatusMap[key])
      case Ok(status) => PostStatus(StatusUpdate(Get(reply, "orderId"), Get(reply, "id"), Get(reply, "currentStatus"), status))
      case Err(_) => Thrown
    else if key in OrderStatusMap then
      if OrderStatusMap[key] == "uploadDocument" then AskForDocuments([VerifyDocumentButton])
      else ListOrders(OrderStatusMap[key], title)
    else if IsOrderNumber(title) then
      ShowOrder(Get(reply, "id"), Get(reply, "orderStatus") == Some("technician_work_completed"))
    else
      CannotProcess
  }

  /** The webhook's interactive branch: `parseCustomId(reply?.id)`, where an
      absent id takes the parameter's default "" and a malformed escape
      throws, then dispatch. */
  function Route(id: Option<string>, title: Option<string>): (a: Action)
    ensures a.Thrown? <==> ParseCustomId(id.GetOr("")).Err?
    ensures !a.Thrown? ==> a == Dispatch(ParseCustomId(id.GetOr("")).value, title)
  {
    match ParseCustomId(id.GetOr(""))
    case Ok(reply) => Dispatch(reply, title)
    case Err(_) => Thrown
  }

  /** A reply without an id is read as the empty object: it names no action,
      so only an order-number title opens an order (with no record id). */
  lemma MissingId(title: Option<string>)
    ensures Route(None, title) == if IsOrderNumber(title) then ShowOrder(None, false) else CannotProcess
  {
    ParseEmpty();
    assert ActionKey(map[]) == "undefined";
    assert !IsAction("undefined");
  }

  /** What `updateOrderStatus` does once the POST has answered
      (`posted` is a payload being present). */
  datatype FollowUp = UpdateFailed | AccessRevoked | WorkCompleted | RefreshOptions

  function AfterStatusUpdate(status: MyOrderStatus, posted: bool): (f: FollowUp)
    ensures !posted <==> f == UpdateFailed
    ensures f == AccessRevoked <==> posted && status.state == "technician_rejected"
    ensures f == WorkCompleted <==> posted && status.state == "technician_work_completed"
  {
    if !posted then UpdateFailed
    else if status.state == "technician_rejected" then AccessRevoked
    else if status.state == "technician_work_completed" then WorkCompleted
    else RefreshOptions
  }

  /** The early returns compare the display label with a status code, so for
      any catalog status, rejection and completion included, a successful post
      is followed by fetching the order again and offering its options. */
  lemma PostedCatalogStatusRefreshes(status: MyOrderStatus)
    requires status in Values
    ensures AfterStatusUpdate(status, true) == RefreshOptions
  {
    NoStateIsTerminalCode(status);
  }

  /** An entry of the option table of `handleOrderStatusOptions`. */
  datatype Choice = Choice(action: string, title: string)

  function Options(currentStatus: Option<string>): seq<Choice> {
    if currentStatus == Some("technician_assigned") then
      [Choice("acceptOrder", "Accept Order"), Choice("rejectOrder", "Reject Order")]
    else if currentStatus == Some("technician_accepted") then
      [Choice("technicianReachedLocation", "Update Status")]
    else if currentStatus == Some("technician_on_location") then
      [Choice("technicianWIP", "Update Status")]
    else if currentStatus == Some("technician_working") then
      [Choice("uploadDocument", "Upload Document")]
    else
      []
  }

  /** Only the four statuses of the table offer options, at most two each, and
      every option is an update action or the upload prompt, so no button
      leads to the fallback reply. */
  lemma OptionsActionable(currentStatus: Option<string>)
    ensures Options(currentStatus) != [] <==>
      currentStatus.Some? && currentStatus.value in
        {"technician_assigned", "technician_accepted", "technician_on_location", "technician_working"}
    ensures |Options(currentStatus)| <= 2
    ensures forall k :: 0 <= k < |Options(currentStatus)| ==>
      Options(currentStatus)[k].action in UpdateStatusMap || Options(currentStatus)[k].action == "uploadDocument"
  {
    UpdateEntries();
  }

  /** The object `{orderStatus: action, orderId, id: _id, currentStatus}`. */
  function OptionFields(order: Order, action: string): seq<Field> {
    [Field("orderStatus", Some(action)), Field("orderId", order.orderId),
     Field("id", order.recordId), Field("currentStatus", order.currentStatus)]
  }

  /** `handleOrderStatusOptions`: one button per option, in table order. */
  function OptionButtons(order: Order): (buttons: seq<Button>)
    ensures |buttons| == |Options(order.currentStatus)|
    ensures forall i :: 0 <= i < |buttons| ==> buttons[i].title == Options(order.currentStatus)[i].title
  {
    var options := Options(order.currentStatus);
    seq(|options|, i requires 0 <= i < |options| =>
      Button(CreateCustomId(OptionFields(order, options[i].action)), options[i].title))
  }

  predicate AsciiOrAbsent(v: Option<string>) {
    v.None? || IsAscii(v.value)
  }

  /** The order fields a button id or row id carries can be read back. */
  predicate Carriable(order: Order) {
    AsciiOrAbsent(order.orderId) && AsciiOrAbsent(order.recordId) && AsciiOrAbsent(order.currentStatus)
  }

  /** A button id built for `action` decodes to the action and the order's
      numbers and status. */
  lemma OptionIdDecodes(order: Order, action: string)
    requires Carriable(order) && IsAscii(action)
    ensures ParseCustomId(CreateCustomId(OptionFields(order, action))).Ok?
    ensures var reply := ParseCustomId(CreateCustomId(OptionFields(order, action))).value;
      Get(reply, "orderStatus") == Some(action)
      && Get(reply, "orderId") == order.orderId
      && Get(reply, "id") == order.recordId
      && Get(reply, "currentStatus") == order.currentStatus
  {
    var fields := OptionFields(order, action);
    OptionFieldsCarriable(order, action);
    RoundTripField(fields, 0);
    RoundTripField(fields, 1);
    RoundTripField(fields, 2);
    RoundTripField(fields, 3);
  }

  lemma OptionFieldsCarriable(order: Order, action: string)
    requires Carriable(order) && IsAscii(action)
    ensures IsCarriable(OptionFields(order, action)) && DistinctKeys(OptionFields(order, action))
  {
    assert IsValidKey("orderStatus") && IsValidKey("orderId") && IsValidKey("id") && IsValidKey("currentStatus");
  }

  /** Tapping the button built for choice `c`. */
  function TapOf(order: Order, c: Choice): Action {
    Route(Some(CreateCustomId(OptionFields(order, c.action))), Some(c.title))
  }

  /** Tapping a button built for an update action posts the action's target
      status for the order, with the status the button was built for as
      `lastStatus`; the upload button asks for the documents. */
  lemma OptionTap(order: Order, c: Choice)
    requires Carriable(order) && IsAscii(c.action)
    requires c.action in UpdateStatusMap || c.action == "uploadDocument"
    ensures c.action in UpdateStatusMap ==>
      (StatusTarget(c.action).Some? && TapOf(order, c) == Move(order, StatusTarget(c.action).value))
    ensures c.action == "uploadDocument" ==> TapOf(order, c) == AskForDocuments([VerifyDocumentButton])
  {
    OptionIdDecodes(order, c.action);
    UpdateTarget(c.action);
    MenuTable(c.action);
  }

  /** What tapping each offered button leads to, for the order's status. */
  function Taps(order: Order): seq<Action> {
    var buttons := OptionButtons(order);
    seq(|buttons|, i requires 0 <= i < |buttons| => Route(Some(buttons[i].id), Some(buttons[i].title)))
  }

  function Move(order: Order, to: MyOrderStatus): Action {
    PostStatus(StatusUpdate(order.orderId, order.recordId, order.currentStatus, to))
  }

  lemma TapsOfOptions(order: Order)
    ensures |Taps(order)| == |Options(order.currentStatus)|
    ensures forall i :: 0 <= i < |Taps(order)| ==> Taps(order)[i] == TapOf(order, Options(order.currentStatus)[i])
  {
  }

  /** The four statuses with options are distinct codes. */
  lemma OptionStatusesDistinct()
    ensures TechnicianAssigned.statusCode != TechnicianAccepted.statusCode
    ensures TechnicianAssigned.statusCode != TechnicianReachedLocation.statusCode
    ensures TechnicianAssigned.statusCode != TechnicianWorking.statusCode
    ensures TechnicianAccepted.statusCode != TechnicianReachedLocation.statusCode
    ensures TechnicianAccepted.statusCode != TechnicianWorking.statusCode
    ensures TechnicianReachedLocation.statusCode != TechnicianWorking.statusCode
  {
    assert TechnicianAssigned.statusCode[12] != TechnicianAccepted.statusCode[12];
  }

  lemma TapAccept(order: Order)
    requires Carriable(order)
    ensures TapOf(order, Choice("acceptOrder", "Accept Order")) == Move(order, TechnicianAccepted)
  {
    var accept := Choice("acceptOrder", "Accept Order");
    assert IsAscii(accept.action) && accept.action in UpdateStatusMap;
    OptionTap(order, accept);
  }

  lemma TapReject(order: Order)
    requires Carriable(order)
    ensures TapOf(order, Choice("rejectOrder", "Reject Order")) == Move(order, TechnicianRejected)
  {
    var reject := Choice("rejectOrder", "Reject Order");
    assert IsAscii(reject.action) && reject.action in UpdateStatusMap;
    OptionTap(order, reject);
  }

  lemma TapReached(order: Order)
    requires Carriable(order)
    ensures TapOf(order, Choice("technicianReachedLocation", "Update Status")) == Move(order, TechnicianReachedLocation)
  {
    var reached := Choice("technicianReachedLocation", "Update Status");
    assert IsAscii(reached.action) && reached.action in UpdateStatusMap;
    OptionTap(order, reached);
  }

  lemma TapWorking(order: Order)
    requires Carriable(order)
    ensures TapOf(order, Choice("technicianWIP", "Update Status")) == Move(order, TechnicianWorking)
  {
    var working := Choice("technicianWIP", "Update Status");
    assert IsAscii(working.action) && working.action in UpdateStatusMap;
    OptionTap(order, working);
  }

  lemma TapUpload(order: Order)
    requires Carriable(order)
    ensures TapOf(order, Choice("uploadDocument", "Upload Document")) == AskForDocuments([VerifyDocumentButton])
  {
    var upload := Choice("uploadDocument", "Upload Document");
    assert IsAscii(upload.action);
    OptionTap(order, upload);
  }

  /** With the options known, the taps are the taps of those options. */
  lemma TapsOfOne(order: Order, c: Choice, outcome: Action)
    requires Options(order.currentStatus) == [c] && TapOf(order, c) == outcome
    ensures Taps(order) == [outcome]
  {
    TapsOfOptions(order);
  }

  lemma TapsOfTwo(order: Order, c: Choice, d: Choice, first: Action, second: Action)
    requires Options(order.currentStatus) == [c, d] && TapOf(order, c) == first && TapOf(order, d) == second
    ensures Taps(order) == [first, second]
  {
    var options := Options(order.currentStatus);
    TapsOfOptions(order);
    var taps := Taps(order);
    assert taps[0] == TapOf(order, options[0]);
    assert taps[1] == TapOf(order, options[1]);
    Pair(taps, first, second);
  }

  lemma Pair<T>(s: seq<T>, x: T, y: T)
    requires |s| == 2 && s[0] == x && s[1] == y
    ensures s == [x, y]
  {
  }

  lemma TapsWhenAssigned(order: Order)
    requires Carriable(order) && order.currentStatus == Some(TechnicianAssigned.statusCode)
    ensures Taps(order) == [Move(order, TechnicianAccepted), Move(order, TechnicianRejected)]
  {
    assert Options(order.currentStatus) == [Choice("acceptOrder", "Accept Order"), Choice("rejectOrder", "Reject Order")];
    TapAccept(order);
    TapReject(order);
    TapsOfTwo(order, Choice("acceptOrder", "Accept Order"), Choice("rejectOrder", "Reject Order"),
              Move(order, TechnicianAccepted), Move(order, TechnicianRejected));
  }

  lemma TapsWhenAccepted(order: Order)
    requires Carriable(order) && order.currentStatus == Some(TechnicianAccepted.statusCode)
    ensures Taps(order) == [Move(order, TechnicianReachedLocation)]
  {
    assert Options(order.currentStatus) == [Choice("technicianReachedLocation", "Update Status")] by {
      OptionStatusesDistinct();
    }
    TapReached(order);
    TapsOfOne(order, Choice("technicianReachedLocation", "Update Status"), Move(order, TechnicianReachedLocation));
  }

  lemma TapsWhenOnLocation(order: Order)
    requires Carriable(order) && order.currentStatus == Some(TechnicianReachedLocation.statusCode)
    ensures Taps(order) == [Move(order, TechnicianWorking)]
  {
    assert Options(order.currentStatus) == [Choice("technicianWIP", "Update Status")] by {
      OptionStatusesDistinct();
    }
    TapWorking(order);
    TapsOfOne(order, Choice("technicianWIP", "Update Status"), Move(order, TechnicianWorking));
  }

  lemma TapsWhenWorking(order: Order)
    requires Carriable(order) && order.currentStatus == Some(TechnicianWorking.statusCode)
    ensures Taps(order) == [AskForDocuments([VerifyDocumentButton])]
  {
    assert Options(order.currentStatus) == [Choice("uploadDocument", "Upload Document")] by {
      OptionStatusesDistinct();
    }
    TapUpload(order);
    TapsOfOne(order, Choice("uploadDocument", "Upload Document"), AskForDocuments([VerifyDocumentButton]));
  }

  /** The buttons move an assigned order to accepted or rejected, an accepted
      one to on-location, an on-location one to working, and ask a working
      technician for documents; any other status offers nothing. The status
      posted as `lastStatus` is the one the buttons were built for. */
  lemma TapOutcomes(order: Order)
    requires Carriable(order)
    ensures order.currentStatus == Some(TechnicianAssigned.statusCode) ==>
      Taps(order) == [Move(order, TechnicianAccepted), Move(order, TechnicianRejected)]
    ensures order.currentStatus == Some(TechnicianAccepted.statusCode) ==>
      Taps(order) == [Move(order, TechnicianReachedLocation)]
    ensures order.currentStatus == Some(TechnicianReachedLocation.statusCode) ==>
      Taps(order) == [Move(order, TechnicianWorking)]
    ensures order.currentStatus == Some(TechnicianWorking.statusCode) ==>
      Taps(order) == [AskForDocuments([VerifyDocumentButton])]
    ensures order.currentStatus !in {Some(TechnicianAssigned.statusCode), Some(TechnicianAccepted.statusCode),
                                     Some(TechnicianReachedLocation.statusCode), Some(TechnicianWorking.statusCode)} ==>
      Taps(order) == []
  {
    if order.currentStatus == Some(TechnicianAssigned.statusCode) {
      TapsWhenAssigned(order);
    } else if order.currentStatus == Some(TechnicianAccepted.statusCode) {
      TapsWhenAccepted(order);
    } else if order.currentStatus == Some(TechnicianReachedLocation.statusCode) {
      TapsWhenOnLocation(order);
    } else if order.currentStatus == Some(TechnicianWorking.statusCode) {
      TapsWhenWorking(order);
    } else {
      TapsOfOptions(order);
    }
  }

  /** `formatOrdersList`: one row per order whose id carries the order's
      status and numbers, titled with the order number. */
  function RowFields(order: Order): seq<Field> {
    [Field("orderStatus", order.currentStatus), Field("orderId", order.orderId), Field("id", order.recordId)]
  }

  function Describe(order: Order): string {
    order.category.GetOr("") + " - " + order.subCategory.GetOr("") + " | " + order.brand.GetOr("")
    + " | " + order.warranty.GetOr("") + " | " + order.serviceComment.GetOr("")
  }

  function FormatOrdersList(orders: seq<Order>): (rows: seq<Row>)
    ensures |rows| == |orders|
    ensures forall i :: 0 <= i < |rows| ==> rows[i].title == orders[i].orderId
  {
    seq(|orders|, i requires 0 <= i < |orders| =>
      Row(CreateCustomId(RowFields(orders[i])), orders[i].orderId, Describe(orders[i])))
  }

  lemma RowFieldsCarriable(order: Order)
    requires Carriable(order)
    ensures IsCarriable(RowFields(order)) && DistinctKeys(RowFields(order))
  {
    assert IsValidKey("orderStatus") && IsValidKey("orderId") && IsValidKey("id");
  }

  /** Each row id decodes to the order's status and numbers. */
  lemma RowDecodes(orders: seq<Order>, i: nat)
    requires i < |orders| && Carriable(orders[i])
    ensures ParseCustomId(FormatOrdersList(orders)[i].id).Ok?
    ensures var reply := ParseCustomId(FormatOrdersList(orders)[i].id).value;
      Get(reply, "orderStatus") == orders[i].currentStatus
      && Get(reply, "orderId") == orders[i].orderId
      && Get(reply, "id") == orders[i].recordId
  {
    var fields := RowFields(orders[i]);
    RowFieldsCarriable(orders[i]);
    RoundTripField(fields, 0);
    RoundTripField(fields, 1);
    RoundTripField(fields, 2);
  }

  /** Choosing a row of an order with a catalog status (or none) opens that
      order when its number has the SRVZ-ORD form, as a summary exactly when
      the work is completed, and is refused otherwise. */
  lemma RowOutcome(orders: seq<Order>, i: nat)
    requires i < |orders| && Carriable(orders[i])
    requires orders[i].currentStatus.None? || HasCode(orders[i].currentStatus.value)
    ensures var row := FormatOrdersList(orders)[i];
      Route(Some(row.id), row.title)
      == if IsOrderNumber(orders[i].orderId)
         then ShowOrder(orders[i].recordId, orders[i].currentStatus == Some(TechnicianWorkCompleted.statusCode))
         else CannotProcess
  {
    RowDecodes(orders, i);
    var row := FormatOrdersList(orders)[i];
    var reply := ParseCustomId(row.id).value;
    StatusKeyNotRouted(reply, orders[i].currentStatus);
    assert Route(Some(row.id), row.title) == Dispatch(reply, orders[i].orderId);
  }

  /** A reply whose `orderStatus` is a catalog code, or absent, is not routed
      by either table. */
  lemma StatusKeyNotRouted(reply: map<string, string>, status: Option<string>)
    requires Get(reply, "orderStatus") == status
    requires status.None? || HasCode(status.value)
    ensures !IsRouted(reply)
  {
    if status.Some? {
      var s := FromStatusCode(status.value).value;
      CatalogCodesAreNotActions(s);
    }
  }

  /** A row or button whose id is `createCustomId({orderStatus: choice})`. */
  function ChoiceId(choice: string): string {
    CreateCustomId([Field("orderStatus", Some(choice))])
  }

  /** A reply carrying such an id is dispatched on `choice` alone. */
  lemma ChoiceTap(choice: string, title: Option<string>)
    requires IsAscii(choice)
    ensures Route(Some(ChoiceId(choice)), title) == Dispatch(map["orderStatus" := choice], title)
  {
    assert IsValidKey("orderStatus");
    RoundTrip([Field("orderStatus", Some(choice))]);
    assert NonNull(map[], [Field("orderStatus", Some(choice))]) == map["orderStatus" := choice];
  }

  /** A menu choice other than the upload prompt lists the orders of its
      table entry under the reply's title. */
  lemma MenuChoice(choice: string, title: Option<string>)
    requires IsAscii(choice) && choice in OrderStatusMap && choice != "uploadDocument"
    ensures Route(Some(ChoiceId(choice)), title) == ListOrders(OrderStatusMap[choice], title)
  {
    ChoiceTap(choice, title);
    MenuTable(choice);
  }

  /** The rows of the main menu (`sendInteractiveOptions`). */
  function MainMenu(): seq<Row> {
    [Row(ChoiceId("pendingOrders"), Some("Pending Orders"), "Not yet started."),
     Row(ChoiceId("wipOrders"), Some("WIP Orders"), "In progress."),
     Row(ChoiceId("completedOrders"), Some("Completed Orders"), "Finished.")]
  }

  /** The ids of the menu rows encode their choices. */
  lemma MainMenuIds()
    ensures MainMenu()[0].id == ChoiceId("pendingOrders")
    ensures MainMenu()[1].id == ChoiceId("wipOrders")
    ensures MainMenu()[2].id == ChoiceId("completedOrders")
  {
  }

  /** The pending choice lists the orders assigned to the technician. */
  lemma PendingChoice(title: Option<string>)
    ensures Route(Some(ChoiceId("pendingOrders")), title) == ListOrders("technician_assigned", title)
  {
    assert IsAscii("pendingOrders");
    MenuEntries();
    MenuChoice("pendingOrders", title);
  }

  /** The work-in-progress choice lists the orders being worked on. */
  lemma WipChoice(title: Option<string>)
    ensures Route(Some(ChoiceId("wipOrders")), title) == ListOrders("technician_working", title)
  {
    assert IsAscii("wipOrders");
    MenuEntries();
    MenuChoice("wipOrders", title);
  }

  /** The completed choice lists the orders whose work is completed. */
  lemma CompletedChoice(title: Option<string>)
    ensures Route(Some(ChoiceId("completedOrders")), title) == ListOrders("technician_work_completed", title)
  {
    assert IsAscii("completedOrders");
    MenuEntries();
    MenuChoice("completedOrders", title);
  }

  /** The menu rows list assigned, working and completed orders, under the
      title the reply carries (the row's own title). */
  lemma MainMenuOutcomes(title: Option<string>)
    ensures Route(Some(MainMenu()[0].id), title) == ListOrders(TechnicianAssigned.statusCode, title)
    ensures Route(Some(MainMenu()[1].id), title) == ListOrders(TechnicianWorking.statusCode, title)
    ensures Route(Some(MainMenu()[2].id), title) == ListOrders(TechnicianWorkCompleted.statusCode, title)
  {
    MainMenuIds();
    PendingChoice(title);
    WipChoice(title);
    CompletedChoice(title);
    assert TechnicianAssigned.statusCode == "technician_assigned";
    assert TechnicianWorking.statusCode == "technician_working";
    assert TechnicianWorkCompleted.statusCode == "technician_work_completed";
  }

  /** The "Verify DOduments" button names a menu entry that lists orders of
      the pseudo-status `verifyDocument`. */
  lemma VerifyDocumentOutcome(title: Option<string>)
    ensures Route(Some(VerifyDocumentButton.id), title) == ListOrders("verifyDocument", title)
  {
    assert IsAscii("verifyDocument");
    MenuChoice("verifyDocument", title);
  }

  /** A group of `sendOrderSections`: its title and the status it fetches. */
  datatype SectionConfig = SectionConfig(title: string, statusCode: string)
  datatype Section = Section(title: Option<string>, rows: seq<Row>)

  /** What `sendOrderSections` sends. */
  datatype Listing = NoPendingOrders | NoOrdersFound | OrderList(title: Option<string>, sections: seq<Section>)

  function SectionConfigs(status: string): Option<seq<SectionConfig>> {
    if status == "technician_working" then
      Some([SectionConfig("Work in Progress", "technician_working"),
            SectionConfig("Reached Location", "technician_on_location"),
            SectionConfig("Part Pending", "parts_approval_pending"),
            SectionConfig("Part Handover to Technician", "parts_handover_to_tecnician"),
            SectionConfig("Defective Pickup", "defective_pickup")])
    else if status == "technician_assigned" then
      Some([SectionConfig("Assigned Orders", "technician_assigned"),
            SectionConfig("Reassigned Orders", "technician_reassigned"),
            SectionConfig("Accepted Orders", "technician_accepted")])
    else None
  }

  /** `fetchOrdersByStatus`: the formatted rows of the fetched items, none when
      the fetch failed (`fetch` stands for the orders API). */
  function FetchRows(fetch: string -> Option<seq<Order>>, status: string): (rows: seq<Row>)
    ensures fetch(status).None? ==> rows == []
    ensures fetch(status).Some? ==> |rows| == |fetch(status).value|
    ensures fetch(status).Some? ==> forall i :: 0 <= i < |rows| ==> rows[i].title == fetch(status).value[i].orderId
  {
    match fetch(status)
    case None => []
    case Some(items) => FormatOrdersList(items)
  }

  /** Only the working and assigned statuses are grouped; the first group of
      each is the status itself, and every group queries a catalog code. */
  lemma SectionCodesInCatalog(status: string)
    ensures SectionConfigs(status).Some? <==> status == "technician_working" || status == "technician_assigned"
    ensures SectionConfigs(status).Some? ==>
      (SectionConfigs(status).value != [] && SectionConfigs(status).value[0].statusCode == status)
    ensures SectionConfigs(status).Some? ==>
      forall k :: 0 <= k < |SectionConfigs(status).value| ==> HasCode(SectionConfigs(status).value[k].statusCode)
  {
    if status == "technician_working" {
      var cs := SectionConfigs(status).value;
      forall k | 0 <= k < |cs| ensures HasCode(cs[k].statusCode) {
        if k == 0 { InCatalog(16, cs[k].statusCode); }
        else if k == 1 { InCatalog(14, cs[k].statusCode); }
        else if k == 2 { InCatalog(15, cs[k].statusCode); }
        else if k == 3 { InCatalog(25, cs[k].statusCode); }
        else { InCatalog(26, cs[k].statusCode); }
      }
    } else if status == "technician_assigned" {
      var cs := SectionConfigs(status).value;
      forall k | 0 <= k < |cs| ensures HasCode(cs[k].statusCode) {
        if k == 0 { InCatalog(2, cs[k].statusCode); }
        else if k == 1 { InCatalog(8, cs[k].statusCode); }
        else { InCatalog(3, cs[k].statusCode); }
      }
    }
  }

  lemma InCatalog(i: nat, code: string)
    requires i < |Values| && Values[i].statusCode == code
    ensures HasCode(code)
  {
  }

  /** The groups with at least one order, in configuration order. */
  function NonEmptySections(configs: seq<SectionConfig>, fetch: string -> Option<seq<Order>>): (r: seq<Section>)
    ensures |r| <= |configs|
    ensures forall k :: 0 <= k < |r| ==> r[k].rows != []
  {
    if configs == [] then []
    else
      var front := NonEmptySections(configs[..|configs| - 1], fetch);
      var last := configs[|configs| - 1];
      var rows := FetchRows(fetch, last.statusCode);
      if |rows| > 0 then front + [Section(Some(last.title), rows)] else front
  }

  /** `sendOrderSections`: fetch each configured group in turn, keep the non-empty
      ones; a status without groups is listed as one section. */
  method SendOrderSections(status: string, replyTitle: Option<string>, fetch: string -> Option<seq<Order>>)
    returns (listing: Listing)
    ensures SectionConfigs(status).Some? ==>
      listing == (var sections := NonEmptySections(SectionConfigs(status).value, fetch);
                  if sections == [] then NoPendingOrders else OrderList(replyTitle, sections))
    ensures SectionConfigs(status).None? ==>
      listing == (var rows := FetchRows(fetch, status);
                  if rows == [] then NoOrdersFound else OrderList(replyTitle, [Section(replyTitle, rows)]))
  {
    var configs := SectionConfigs(status);
    if configs.Some? {
      var groups := configs.value;
      var sections: seq<Section> := [];
      for i := 0 to |groups|
        invariant sections == NonEmptySections(groups[..i], fetch)
      {
        var orders := FetchRows(fetch, groups[i].statusCode);
        if |orders| > 0 {
          sections := sections + [Section(Some(groups[i].title), orders)];
        }
        assert groups[..i + 1][..i] == groups[..i];
      }
      assert groups[..|groups|] == groups;
      if |sections| == 0 {
        listing := NoPendingOrders;
      } else {
        listing := OrderList(replyTitle, sections);
      }
    } else {
      var orders := FetchRows(fetch, status);
      if |orders| == 0 {
        listing := NoOrdersFound;
      } else {
        listing := OrderList(replyTitle, [Section(replyTitle, orders)]);
      }
    }
  }

  /** Every section sent is one of the configured groups with the rows fetched for it. */
  lemma {:induction false} SectionsSound(configs: seq<SectionConfig>, fetch: string -> Option<seq<Order>>)
    ensures forall s :: s in NonEmptySections(configs, fetch) ==>
      exists c :: c in configs && s == Section(Some(c.title), FetchRows(fetch, c.statusCode))
  {
    if configs != [] {
      var front := configs[..|configs| - 1];
      var last := configs[|configs| - 1];
      SectionsSound(front, fetch);
      forall s | s in NonEmptySections(configs, fetch)
        ensures exists c :: c in configs && s == Section(Some(c.title), FetchRows(fetch, c.statusCode))
      {
        if s in NonEmptySections(front, fetch) {
          var c :| c in front && s == Section(Some(c.title), FetchRows(fetch, c.statusCode));
          assert c in configs;
        } else {
          assert s == Section(Some(last.title), FetchRows(fetch, last.statusCode));
          assert last in configs;
        }
      }
    }
  }

  /** Every configured group whose fetch yields rows is sent, with those rows. */
  lemma {:induction false} SectionsComplete(configs: seq<SectionConfig>, fetch: string -> Option<seq<Order>>)
    ensures forall c :: c in configs && FetchRows(fetch, c.statusCode) != [] ==>
      Section(Some(c.title), FetchRows(fetch, c.statusCode)) in NonEmptySections(configs, fetch)
  {
    if configs != [] {
      var front := configs[..|configs| - 1];
      SectionsComplete(front, fetch);
      assert configs == front + [configs[|configs| - 1]];
    }
  }

  /** "No pending orders" is sent exactly when every configured group is empty. */
  lemma NoSectionsMeansAllEmpty(configs: seq<SectionConfig>, fetch: string -> Option<seq<Order>>)
    ensures NonEmptySections(configs, fetch) == [] <==>
      forall c :: c in configs ==> FetchRows(fetch, c.statusCode) == []
  {
    SectionsComplete(configs, fetch);
    SectionsSound(configs, fetch);
    if NonEmptySections(configs, fetch) != [] {
      var s := NonEmptySections(configs, fetch)[0];
      assert s in NonEmptySections(configs, fetch);
    }
  }

  /** `requiredDocuments[word]`: the document a lower-cased caption names. */
  function DocumentNamed(word: string): (d: Option<DocType.DocType>)
    ensures d.Some? <==> word in {"invoice", "device", "serial"}
    ensures d == Some(DocType.RequiredInvoice) <==> word == "invoice"
    ensures d == Some(DocType.RequiredDevicePhoto) <==> word == "device"
    ensures d == Some(DocType.RequiredSerialNo) <==> word == "serial"
  {
    if word == "invoice" then Some(DocType.RequiredInvoice)
    else if word == "device" then Some(DocType.RequiredDevicePhoto)
    else if word == "serial" then Some(DocType.RequiredSerialNo)
    else None
  }

  /** The image branch: the trimmed, lower-cased caption names a required document. */
  function CaptionDocument(caption: Option<string>): (d: Option<DocType.DocType>)
    ensures d.Some? <==> caption.Some? && ToLower(Trim(caption.value)) in {"invoice", "device", "serial"}
    ensures d.Some? ==> d.value in DocType.RequiredDocumentData
  {
    if caption.None? then None else DocumentNamed(ToLower(Trim(caption.value)))
  }

  /** The caption check as written: the property lookup also
      finds what a plain object inherits from `Object.prototype`, and of those
      names a lower-cased caption can spell `constructor` and `__proto__`. */
  function CaptionAcceptedAsWritten(caption: Option<string>): (ok: bool)
    ensures ok ==> caption.Some? && ToLower(Trim(caption.value)) != ""
    ensures CaptionDocument(caption).Some? ==> ok
  {
    caption.Some?
    && var word := ToLower(Trim(caption.value));
    word != "" && (DocumentNamed(word).Some? || word == "constructor" || word == "__proto__")
  }

  /** An image whose caption reads "constructor" once trimmed and lower-cased
      is accepted and saved although it names no required document. */
  lemma InheritedNameAccepted(caption: string)
    requires ToLower(Trim(caption)) == "constructor"
    ensures CaptionAcceptedAsWritten(Some(caption))
    ensures CaptionDocument(Some(caption)) == None
  {
  }

  /** "Constructor" is such a caption, so an image sent with it is saved. */
  lemma ConstructorCaptionAccepted()
    ensures CaptionAcceptedAsWritten(Some("Constructor"))
    ensures CaptionDocument(Some("Constructor")) == None
    ensures RouteVerified(Image(Some("Constructor"))) == SaveImage
  {
    var w := "Constructor";
    Unpadded(w);
    LowerConstructor(w);
    InheritedNameAccepted(w);
  }

  /** A word that neither starts nor ends with whitespace is its own trim. */
  lemma Unpadded(w: string)
    requires w != [] && !IsJsWhitespace(w[0]) && !IsJsWhitespace(w[|w| - 1])
    ensures Trim(w) == w
  {
    TrimPadded([], w, []);
    assert [] + w + [] == w;
  }

  lemma LowerConstructor(w: string)
    requires w == "Constructor"
    ensures ToLower(w) == "constructor"
  {
    assert ToLower(w)[0] == 'c';
  }

  /** The messages of a verified technician. */
  datatype Inbound = InteractiveReply(id: Option<string>, title: Option<string>) | Image(caption: Option<string>) | OtherMessage

  datatype Response = Routed(action: Action) | SaveImage | InvalidCaption | ShowMenu

  /** The rest of the handler once the sender is verified. The image branch
      performs the lookup as written: every caption that names a document is
      saved, and so is one that spells an inherited name. */
  function RouteVerified(m: Inbound): (r: Response)
    ensures m.InteractiveReply? <==> r.Routed?
    ensures m.InteractiveReply? ==> r.action == Route(m.id, m.title)
    ensures m.Image? ==> (r == SaveImage <==> CaptionAcceptedAsWritten(m.caption))
    ensures m.Image? ==> (r == InvalidCaption <==> !CaptionAcceptedAsWritten(m.caption))
    ensures m.Image? && CaptionDocument(m.caption).Some? ==> r == SaveImage
    ensures m.Image? && (m.caption.None? || ToLower(Trim(m.caption.value)) == "") ==> r == InvalidCaption
    ensures r == ShowMenu <==> m.OtherMessage?
  {
    match m
    case InteractiveReply(id, title) => Routed(Route(id, title))
    case Image(caption) => if CaptionAcceptedAsWritten(caption) then SaveImage else InvalidCaption
    case OtherMessage => ShowMenu
  }

  /** Whitespace around a caption does not change the document it names. */
  lemma CaptionPadding(pre: string, w: string, post: string)
    requires forall k :: 0 <= k < |pre| ==> IsJsWhitespace(pre[k])
    requires forall k :: 0 <= k < |post| ==> IsJsWhitespace(post[k])
    requires w == [] || (!IsJsWhitespace(w[0]) && !IsJsWhitespace(w[|w| - 1]))
    ensures CaptionDocument(Some(pre + w + post)) == CaptionDocument(Some(w))
  {
    TrimPadded(pre, w, post);
    TrimPadded([], w, []);
    assert [] + w + [] == w;
    assert Trim(pre + w + post) == Trim(w);
  }
}
