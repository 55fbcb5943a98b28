/** The listener addRenameListener registers with the meta contact list
    service: it watches contact-list events and asks for the new meta
    contact to be renamed once the added contact shows up. The rename runs
    on its own thread in the application; here it is an emitted request. */
module RenameListener {
  import opened ContactTypes

  /** The values the anonymous listener captures. */
  datatype Listener = Listener(
    provider: Provider,
    metaContact: Option<MetaContact>,
    address: string,
    displayName: string)

  /** The two contact-list notifications the listener overrides. */
  datatype Event =
    | MetaContactAdded(sourceMetaContact: MetaContact)
    | ProtoContactAdded(protoContact: Contact, oldParent: Option<MetaContact>, newParent: MetaContact)

  /** A renameMetaContact call handed to a background thread. */
  datatype RenameRequest = RenameRequest(target: MetaContact, newName: string)

  /** Whether `l` reacts to `e` at all. */
  ghost predicate Fires(l: Listener, e: Event)
  {
    match e
    case MetaContactAdded(mc) => HasContact(mc, l.address, l.provider)
    case ProtoContactAdded(_, _, parent) => l.metaContact == Some(parent)
  }

  /** The listener's reaction to one event: a new meta contact holding the
      added (address, provider) contact is renamed; a protocol contact moved
      into the captured meta contact renames that meta contact. */
  function OnEvent(l: Listener, e: Event): (r: Option<RenameRequest>)
    ensures r.Some? <==> Fires(l, e)
    ensures r.Some? ==> r.value.newName == l.displayName
    ensures r.Some? && e.MetaContactAdded? ==> r.value.target == e.sourceMetaContact
    ensures r.Some? && e.ProtoContactAdded? ==> l.metaContact == Some(r.value.target) && r.value.target == e.newParent
  {
    match e
    case MetaContactAdded(mc) =>
      if GetContact(mc, l.address, l.provider).Some? then Some(RenameRequest(mc, l.displayName)) else None
    case ProtoContactAdded(_, _, parent) =>
      if l.metaContact.Some? && parent == l.metaContact.value
      then Some(RenameRequest(l.metaContact.value, l.displayName))
      else None
  }

  /** The rename requests emitted when `e` is dispatched to every
      registered listener, in registration order. */
  function Deliver(listeners: seq<Listener>, e: Event): (r: seq<RenameRequest>)
    ensures |r| <= |listeners|
    ensures forall q :: q in r ==> exists i :: 0 <= i < |listeners| && OnEvent(listeners[i], e) == Some(q)
    ensures forall i :: 0 <= i < |listeners| && Fires(listeners[i], e) ==> OnEvent(listeners[i], e).value in r
  {
    if |listeners| == 0 then []
    else
      var rest := Deliver(listeners[1..], e);
      assert forall i :: 1 <= i < |listeners| ==> listeners[i] == listeners[1..][i - 1];
      match OnEvent(listeners[0], e)
      case Some(q) => [q] + rest
      case None => rest
  }

  /** The rename requests emitted by a sequence of events, none of which
      removes a listener. */
  function DeliverAll(listeners: seq<Listener>, events: seq<Event>): (r: seq<RenameRequest>)
    ensures |r| <= |listeners| * |events|
    ensures forall q :: q in r ==>
      exists k, i :: 0 <= k < |events| && 0 <= i < |listeners| && OnEvent(listeners[i], events[k]) == Some(q)
    ensures forall k, i :: 0 <= k < |events| && 0 <= i < |listeners| && Fires(listeners[i], events[k]) ==>
      OnEvent(listeners[i], events[k]).value in r
  {
    if |events| == 0 then []
    else
      var first := Deliver(listeners, events[0]);
      var rest := DeliverAll(listeners, events[1..]);
      MultiplyStep(|listeners|, |events|);
      assert forall q :: q in first + rest ==>
        exists k, i :: 0 <= k < |events| && 0 <= i < |listeners| && OnEvent(listeners[i], events[k]) == Some(q) by {
        forall q | q in first + rest
          ensures exists k, i :: 0 <= k < |events| && 0 <= i < |listeners| && OnEvent(listeners[i], events[k]) == Some(q)
        {
          if q in rest {
            var k, i :| 0 <= k < |events[1..]| && 0 <= i < |listeners| && OnEvent(listeners[i], events[1..][k]) == Some(q);
            assert events[1..][k] == events[k + 1];
          } else {
            assert q in first;
            var i :| 0 <= i < |listeners| && OnEvent(listeners[i], events[0]) == Some(q);
          }
        }
      }
      assert forall k, i :: 0 <= k < |events| && 0 <= i < |listeners| && Fires(listeners[i], events[k]) ==>
        OnEvent(listeners[i], events[k]).value in first + rest by {
        forall k, i | 0 <= k < |events| && 0 <= i < |listeners| && Fires(listeners[i], events[k])
          ensures OnEvent(listeners[i], events[k]).value in first + rest
        {
          if k > 0 {
            assert events[k] == events[1..][k - 1];
          }
        }
      }
      first + rest
  }

  /** One more event allows one more rename per listener. */
  lemma MultiplyStep(n: nat, m: nat)
    requires m > 0
    ensures n * m == n + n * (m - 1)
  {
  }

  /** A listener ignores every event that does not concern it. */
  lemma {:induction false} DeliverIgnoresNonMatching(listeners: seq<Listener>, e: Event)
    requires forall i :: 0 <= i < |listeners| ==> !Fires(listeners[i], e)
    ensures Deliver(listeners, e) == []
  {
    if |listeners| > 0 {
      assert !Fires(listeners[0], e);
      DeliverIgnoresNonMatching(listeners[1..], e);
    }
  }

  /** Listeners registered by independent submissions react independently. */
  lemma {:induction false} DeliverConcat(ls1: seq<Listener>, ls2: seq<Listener>, e: Event)
    ensures Deliver(ls1 + ls2, e) == Deliver(ls1, e) + Deliver(ls2, e)
  {
    if |ls1| == 0 {
      assert ls1 + ls2 == ls2;
    } else {
      assert (ls1 + ls2)[1..] == ls1[1..] + ls2;
      DeliverConcat(ls1[1..], ls2, e);
    }
  }

  /** Events are handled one after the other: the renames of two batches
      of events are those of the first batch followed by those of the second. */
  lemma {:induction false} DeliverAllConcat(listeners: seq<Listener>, es1: seq<Event>, es2: seq<Event>)
    ensures DeliverAll(listeners, es1 + es2) == DeliverAll(listeners, es1) + DeliverAll(listeners, es2)
  {
    if |es1| == 0 {
      assert es1 + es2 == es2;
    } else {
      assert (es1 + es2)[1..] == es1[1..] + es2;
      DeliverAllConcat(listeners, es1[1..], es2);
    }
  }

  /** The listener is never removed: the same matching event delivered
      twice asks for the rename twice, so nothing limits it to one firing. */
  lemma RepeatedEventRenamesTwice(l: Listener, e: Event)
    requires Fires(l, e)
    ensures |DeliverAll([l], [e, e])| == 2
    ensures DeliverAll([l], [e, e])[0] == DeliverAll([l], [e, e])[1]
  {
  }
}
