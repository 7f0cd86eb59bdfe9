/** The order status catalog: immutable `(state label, statusCode)` pairs and
    the two lookups that throw on a miss. */
module OrderStatus {
  import opened Wrappers

  /** A `MyOrderStatus` object; it is never changed after construction. */
  datatype MyOrderStatus = MyOrderStatus(state: string, statusCode: string)

  /** The errors thrown by the two lookups. */
  datatype LookupError = UnknownStatusCode(code: string) | UnknownState(state: string)

  const ScWorkInProgress := MyOrderStatus("Service Center WIP", "sc_wip")
  const OrderCart := MyOrderStatus("Cart", "add_to_cart")
  const TechnicianAssigned := MyOrderStatus("Assign Technician", "technician_assigned")
  const TechnicianAccepted := MyOrderStatus("Technician Accepted", "technician_accepted")
  const ScReassigned := MyOrderStatus("Service Center Reassigned", "sc_reassigned")
  const ScAssigned := MyOrderStatus("Service Center Assigned", "sc_assigned")
  const TechnicianRejected := MyOrderStatus("Technician Rejected", "technician_rejected")
  const CancelByCustomer := MyOrderStatus("Order Cancelled by Customer", "order_cancelled_by_customer")
  const TechnicianReassigned := MyOrderStatus("Technician Reassigned", "technician_reassigned")
  const OrderPlaced := MyOrderStatus("Order Placed", "order_placed")
  const OrderResolved := MyOrderStatus("Order Resolved", "sc_order_resolved")
  const RefundSent := MyOrderStatus("Refund Sent", "refund_sent")
  const PartsApproved := MyOrderStatus("Parts approved", "parts_approved")
  const RefundInitiated := MyOrderStatus("Refund Initiated", "refund_initiated")
  const TechnicianReachedLocation := MyOrderStatus("Technician reached the location", "technician_on_location")
  const PartsApprovalPending := MyOrderStatus("Parts Request", "parts_approval_pending")
  const TechnicianWorking := MyOrderStatus("Technician WIP", "technician_working")
  const RefundReceived := MyOrderStatus("Refund Received by Customer", "refund_received")
  const OrderScheduled := MyOrderStatus("Order Scheduled", "order_scheduled")
  const ScRejected := MyOrderStatus("Service Centre rejected", "sc_rejected")
  const TechnicianWorkCompleted := MyOrderStatus("Work Completed", "technician_work_completed")
  const GeneralStatus := MyOrderStatus("General/Info.", "general")
  const PartDispatched := MyOrderStatus("Part Dispatched", "parts_dispatched")
  const PartOnTheWay := MyOrderStatus("Part On the Way", "parts_on_the_way")
  const PartDelivered := MyOrderStatus("Part Delivered", "part_delivered")
  const PartHandoverToTechnician := MyOrderStatus("Parts Handover to Technician", "parts_handover_to_tecnician")
  const DefectivePartPickup := MyOrderStatus("Defective Parts Pickup", "defective_pickup")

  /** `Status.values`: the `MyOrderStatus` members of `Status` in declaration
      order (the `values` slot itself is not one of them). */
  const Values: seq<MyOrderStatus> := [
    ScWorkInProgress, OrderCart, TechnicianAssigned, TechnicianAccepted, ScReassigned,
    ScAssigned, TechnicianRejected, CancelByCustomer, TechnicianReassigned, OrderPlaced,
    OrderResolved, RefundSent, PartsApproved, RefundInitiated, TechnicianReachedLocation,
    PartsApprovalPending, TechnicianWorking, RefundReceived, OrderScheduled, ScRejected,
    TechnicianWorkCompleted, GeneralStatus, PartDispatched, PartOnTheWay, PartDelivered,
    PartHandoverToTechnician, DefectivePartPickup
  ]

  predicate HasCode(code: string) {
    exists i :: 0 <= i < |Values| && Values[i].statusCode == code
  }

  predicate HasState(state: string) {
    exists i :: 0 <= i < |Values| && Values[i].state == state
  }

  /** Index of the first entry of `statuses` with this code, as `find` scans. */
  function FindCode(statuses: seq<MyOrderStatus>, code: string): (r: Option<nat>)
    ensures r.Some? ==> (r.value < |statuses| && statuses[r.value].statusCode == code
                         && forall j :: 0 <= j < r.value ==> statuses[j].statusCode != code)
    ensures r.None? ==> forall j :: 0 <= j < |statuses| ==> statuses[j].statusCode != code
  {
    if statuses == [] then None
    else if statuses[0].statusCode == code then Some(0)
    else match FindCode(statuses[1..], code)
      case None => None
      case Some(i) => Some(i + 1)
  }

  function FindState(statuses: seq<MyOrderStatus>, state: string): (r: Option<nat>)
    ensures r.Some? ==> (r.value < |statuses| && statuses[r.value].state == state
                         && forall j :: 0 <= j < r.value ==> statuses[j].state != state)
    ensures r.None? ==> forall j :: 0 <= j < |statuses| ==> statuses[j].state != state
  {
    if statuses == [] then None
    else if statuses[0].state == state then Some(0)
    else match FindState(statuses[1..], state)
      case None => None
      case Some(i) => Some(i + 1)
  }

  /** `MyOrderStatus.fromStatusCode(code)`: the catalog entry with that code,
      or the "Unknown status code" error; never a default. */
  function FromStatusCode(code: string): (r: Result<MyOrderStatus, LookupError>)
    ensures r.Ok? <==> HasCode(code)
    ensures r.Ok? ==> r.value in Values && r.value.statusCode == code
    ensures r.Err? ==> r.error == UnknownStatusCode(code)
  {
    match FindCode(Values, code)
    case Some(i) => Ok(Values[i])
    case None => Err(UnknownStatusCode(code))
  }

  /** `MyOrderStatus.fromState(state)`, symmetric on labels. */
  function FromState(state: string): (r: Result<MyOrderStatus, LookupError>)
    ensures r.Ok? <==> HasState(state)
    ensures r.Ok? ==> r.value in Values && r.value.state == state
    ensures r.Err? ==> r.error == UnknownState(state)
  {
    match FindState(Values, state)
    case Some(i) => Ok(Values[i])
    case None => Err(UnknownState(state))
  }

  /** A member of `Status.values` is one of the named entries. */
  lemma CatalogEntries(s: MyOrderStatus)
    requires s in Values
    ensures s == ScWorkInProgress
      || s == OrderCart
      || s == TechnicianAssigned
      || s == TechnicianAccepted
      || s == ScReassigned
      || s == ScAssigned
      || s == TechnicianRejected
      || s == CancelByCustomer
      || s == TechnicianReassigned
      || s == OrderPlaced
      || s == OrderResolved
      || s == RefundSent
      || s == PartsApproved
      || s == RefundInitiated
      || s == TechnicianReachedLocation
      || s == PartsApprovalPending
      || s == TechnicianWorking
      || s == RefundReceived
      || s == OrderScheduled
      || s == ScRejected
      || s == TechnicianWorkCompleted
      || s == GeneralStatus
      || s == PartDispatched
      || s == PartOnTheWay
      || s == PartDelivered
      || s == PartHandoverToTechnician
      || s == DefectivePartPickup
  {
  }

  lemma ValuesCount()
    ensures |Values| == 27
  {
  }

  /** No two catalog entries share a status code. */
  lemma CodesDistinct()
    ensures forall i, j :: 0 <= i < j < |Values| ==> Values[i].statusCode != Values[j].statusCode
  {
  }

  /** No two catalog entries share a state label. */
  lemma StatesDistinct()
    ensures forall i, j :: 0 <= i < j < |Values| ==> Values[i].state != Values[j].state
  {
  }

  lemma FromStatusCodeOfEntry(s: MyOrderStatus)
    requires s in Values
    ensures FromStatusCode(s.statusCode) == Ok(s)
  {
    var i :| 0 <= i < |Values| && Values[i] == s;
    var r := FindCode(Values, s.statusCode);
    assert r.Some?;
    assert r.value == i by {
      CodesDistinct();
    }
  }

  lemma FromStateOfEntry(s: MyOrderStatus)
    requires s in Values
    ensures FromState(s.state) == Ok(s)
  {
    var i :| 0 <= i < |Values| && Values[i] == s;
    var r := FindState(Values, s.state);
    assert r.Some?;
    assert r.value == i by {
      StatesDistinct();
    }
  }

  /** The labels are display texts, never the codes `updateOrderStatus`
      compares `status.state` against. */
  lemma NoStateIsTerminalCode(s: MyOrderStatus)
    requires s in Values
    ensures s.state != "technician_rejected" && s.state != "technician_work_completed"
  {
  }

  lemma UnknownCodeFails()
    ensures FromStatusCode("nonexistent") == Err(UnknownStatusCode("nonexistent"))
  {
    assert forall i :: 0 <= i < |Values| ==> Values[i].statusCode != "nonexistent";
  }
}
