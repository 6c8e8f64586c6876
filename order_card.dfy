/** One order on the admin board (src/components/OrderCard.jsx): its short number, the
    prep-time field and the status buttons, each of which writes one field of the order. */
module OrderCard {
  import opened Wrappers

  /** The fields of an order the card reads. */
  datatype OrderView = OrderView(id: string, status: string, prepTime: int)

  /** The single-field `updateDoc` on `orders/<id>` that a control issues. */
  datatype Change = SetStatus(newStatus: string) | SetPrepTime(minutes: int)
  datatype OrderUpdate = OrderUpdate(orderId: string, change: Change)

  /** The heading's order number: the first eight characters of the document id. */
  function OrderNumber(id: string): (r: string)
    ensures |r| == if |id| < 8 then |id| else 8
    ensures r <= id
  {
    if |id| < 8 then id else id[..8]
  }

  /** Prep time and controls are editable only while the order is pending or confirmed. */
  predicate IsEditable(status: string)
  {
    status == "pending" || status == "confirmed"
  }

  /** The statuses the card's buttons write, in the order they are shown. */
  function StatusButtons(status: string): (r: seq<string>)
    ensures "confirmed" in r <==> status == "pending"
    ensures "completed" in r <==> status != "completed"
    ensures forall t :: t in r ==> t == "confirmed" || t == "completed"
  {
    (if status == "pending" then ["confirmed"] else []) + (if status != "completed" then ["completed"] else [])
  }

  /** Pressing a button: the write it issues, or nothing when no such button is shown. */
  function PressStatusButton(order: OrderView, newStatus: string): (r: Option<OrderUpdate>)
    ensures r.Some? <==> newStatus in StatusButtons(order.status)
    ensures r.Some? ==> r.value == OrderUpdate(order.id, SetStatus(newStatus))
  {
    if newStatus in StatusButtons(order.status) then Some(OrderUpdate(order.id, SetStatus(newStatus))) else None
  }

  /** The write a prep-time edit issues: one only while the order is editable. */
  function PrepTimeWrite(order: OrderView, minutes: int): (r: Option<OrderUpdate>)
    ensures r.Some? <==> IsEditable(order.status)
    ensures r.Some? ==> r.value == OrderUpdate(order.id, SetPrepTime(minutes))
  {
    if IsEditable(order.status) then Some(OrderUpdate(order.id, SetPrepTime(minutes))) else None
  }

  /** A completed order shows no status button, so nothing moves it on. */
  lemma CompletedIsFinal(order: OrderView, newStatus: string)
    requires order.status == "completed"
    ensures PressStatusButton(order, newStatus).None?
  {
  }

  /** From any status a button can only lead to "confirmed" (from pending) or "completed". */
  lemma ButtonsLeadForward(order: OrderView, newStatus: string)
    requires PressStatusButton(order, newStatus).Some?
    ensures (newStatus == "confirmed" && order.status == "pending") || newStatus == "completed"
  {
  }

  /** A refunded order is not editable, yet it still offers "Mark as Completed". */
  lemma RefundedCanBeCompleted(id: string, prepTime: int)
    ensures var order := OrderView(id, "refunded", prepTime);
      && !IsEditable(order.status)
      && PressStatusButton(order, "completed") == Some(OrderUpdate(id, SetStatus("completed")))
      && PrepTimeWrite(order, prepTime + 1).None?
  {
    assert "completed" in StatusButtons("refunded");
  }

  /** The card's local state: the order it shows, the prep time in its input field, and the
      writes it has issued so far. */
  class Card {
    var order: OrderView
    var localPrepTime: int
    var issued: seq<OrderUpdate>

    /** The field starts at the order's prep time (`|| 0` leaves a missing one at 0). */
    constructor (order: OrderView)
      ensures this.order == order && localPrepTime == order.prepTime && issued == []
    {
      this.order := order;
      localPrepTime := order.prepTime;
      issued := [];
    }

    /** The input's onChange: the field always shows the new value; it is written to the
        order only while the order is editable. */
    method ChangePrepTime(minutes: int)
      modifies this
      ensures order == old(order) && localPrepTime == minutes
      ensures issued == old(issued) + (if IsEditable(order.status) then [OrderUpdate(order.id, SetPrepTime(minutes))] else [])
    {
      localPrepTime := minutes;
      var w := PrepTimeWrite(order, minutes);
      if w.Some? {
        issued := issued + [w.value];
      }
    }

    /** A status button's onClick. */
    method Press(newStatus: string)
      requires newStatus in StatusButtons(order.status)
      modifies this
      ensures order == old(order) && localPrepTime == old(localPrepTime)
      ensures issued == old(issued) + [OrderUpdate(order.id, SetStatus(newStatus))]
    {
      var w := PressStatusButton(order, newStatus);
      issued := issued + [w.value];
    }

    /** A new snapshot of the order: the effect keyed on the prep time resets the field only
        when the stored prep time has changed. */
    method Receive(snapshot: OrderView)
      modifies this
      ensures order == snapshot && issued == old(issued)
      ensures localPrepTime == if snapshot.prepTime != old(order.prepTime) then snapshot.prepTime else old(localPrepTime)
    {
      if snapshot.prepTime != order.prepTime {
        localPrepTime := snapshot.prepTime;
      }
      order := snapshot;
    }
  }
}
