/** The fixed tables `handleInteractiveMessage` (index.js) routes reply
    actions through, and how they relate to the order status catalog. */
module ReplyTables {
  import opened Wrappers
  import opened OrderStatus

  /** `updateStatusMap`: button actions that post a new order status. */
  const UpdateStatusMap: map<string, string> := map[
    "acceptOrder" := "technician_accepted",
    "rejectOrder" := "technician_rejected",
    "technicianReachedLocation" := "technician_on_location",
    "technicianWIP" := "technician_working",
    "makePartRequest" := "parts_approval_pending",
    "makeMarkComplete" := "technician_work_completed"
  ]

  /** `orderStatusMap`: menu choices that list orders or ask for documents. */
  const OrderStatusMap: map<string, string> := map[
    "pendingOrders" := "technician_assigned",
    "wipOrders" := "technician_working",
    "completedOrders" := "technician_work_completed",
    "uploadDocument" := "uploadDocument",
    "verifyDocument" := "verifyDocument"
  ]

  /** The update table in catalog terms: the entry each action moves an order to. */
  function StatusTarget(action: string): Option<MyOrderStatus> {
    if action == "acceptOrder" then Some(TechnicianAccepted)
    else if action == "rejectOrder" then Some(TechnicianRejected)
    else if action == "technicianReachedLocation" then Some(TechnicianReachedLocation)
    else if action == "technicianWIP" then Some(TechnicianWorking)
    else if action == "makePartRequest" then Some(PartsApprovalPending)
    else if action == "makeMarkComplete" then Some(TechnicianWorkCompleted)
    else None
  }

  /** Every target of the update table is a catalog code, so `fromStatusCode`
      never throws on that path, and it yields the entry named for the action. */
  lemma UpdateTarget(action: string)
    ensures action in UpdateStatusMap <==> StatusTarget(action).Some?
    ensures action in UpdateStatusMap ==> FromStatusCode(UpdateStatusMap[action]) == Ok(StatusTarget(action).value)
  {
    if action in UpdateStatusMap {
      var s := StatusTarget(action).value;
      assert s in Values;
      assert UpdateStatusMap[action] == s.statusCode;
      FromStatusCodeOfEntry(s);
    }
  }

  /** The two tables share no key, and only the `uploadDocument` entry of the
      menu table maps to "uploadDocument". */
  lemma MenuTable(key: string)
    ensures key in OrderStatusMap ==> key !in UpdateStatusMap
    ensures key == "uploadDocument" ==> key in OrderStatusMap && OrderStatusMap[key] == "uploadDocument"
    ensures key in OrderStatusMap && key != "uploadDocument" ==> OrderStatusMap[key] != "uploadDocument"
  {
  }

  /** The menu table's entries for the listing choices. */
  lemma MenuEntries()
    ensures "pendingOrders" in OrderStatusMap && OrderStatusMap["pendingOrders"] == "technician_assigned"
    ensures "wipOrders" in OrderStatusMap && OrderStatusMap["wipOrders"] == "technician_working"
    ensures "completedOrders" in OrderStatusMap && OrderStatusMap["completedOrders"] == "technician_work_completed"
  {
  }

  /** The update table's entries for the actions the option buttons carry. */
  lemma UpdateEntries()
    ensures "acceptOrder" in UpdateStatusMap && "rejectOrder" in UpdateStatusMap
    ensures "technicianReachedLocation" in UpdateStatusMap && "technicianWIP" in UpdateStatusMap
  {
  }

  predicate IsAction(code: string) {
    code in UpdateStatusMap || code in OrderStatusMap
  }

  lemma CatalogCodesAreNotActionsPart0()
    ensures !IsAction(ScWorkInProgress.statusCode)
    ensures !IsAction(OrderCart.statusCode)
    ensures !IsAction(TechnicianAssigned.statusCode)
    ensures !IsAction(TechnicianAccepted.statusCode)
  {
  }

  lemma CatalogCodesAreNotActionsPart1()
    ensures !IsAction(ScReassigned.statusCode)
    ensures !IsAction(ScAssigned.statusCode)
    ensures !IsAction(TechnicianRejected.statusCode)
    ensures !IsAction(CancelByCustomer.statusCode)
  {
  }

  lemma CatalogCodesAreNotActionsPart2()
    ensures !IsAction(TechnicianReassigned.statusCode)
    ensures !IsAction(OrderPlaced.statusCode)
    ensures !IsAction(OrderResolved.statusCode)
    ensures !IsAction(RefundSent.statusCode)
  {
  }

  lemma CatalogCodesAreNotActionsPart3()
    ensures !IsAction(PartsApproved.statusCode)
    ensures !IsAction(RefundInitiated.statusCode)
    ensures !IsAction(TechnicianReachedLocation.statusCode)
    ensures !IsAction(PartsApprovalPending.statusCode)
  {
  }

  lemma CatalogCodesAreNotActionsPart4()
    ensures !IsAction(TechnicianWorking.statusCode)
    ensures !IsAction(RefundReceived.statusCode)
    ensures !IsAction(OrderScheduled.statusCode)
    ensures !IsAction(ScRejected.statusCode)
  {
  }

  lemma CatalogCodesAreNotActionsPart5()
    ensures !IsAction(TechnicianWorkCompleted.statusCode)
    ensures !IsAction(GeneralStatus.statusCode)
    ensures !IsAction(PartDispatched.statusCode)
    ensures !IsAction(PartOnTheWay.statusCode)
  {
  }

  lemma CatalogCodesAreNotActionsPart6()
    ensures !IsAction(PartDelivered.statusCode)
    ensures !IsAction(PartHandoverToTechnician.statusCode)
    ensures !IsAction(DefectivePartPickup.statusCode)
  {
  }

  /** A catalog status code is never a key of either table, so a list row
      carrying one is routed by its title. */
  lemma CatalogCodesAreNotActions(s: MyOrderStatus)
    requires s in Values
    ensures !IsAction(s.statusCode)
  {
    CatalogEntries(s);
    CatalogCodesAreNotActionsPart0();
    CatalogCodesAreNotActionsPart1();
    CatalogCodesAreNotActionsPart2();
    CatalogCodesAreNotActionsPart3();
    CatalogCodesAreNotActionsPart4();
    CatalogCodesAreNotActionsPart5();
    CatalogCodesAreNotActionsPart6();
  }
}
