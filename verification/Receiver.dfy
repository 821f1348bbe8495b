/** The example webhook receiver: an event delivered again is handled once, as far
    back as it remembers (examples/webhook_receiver.py). One delivery is one step. */
module Receiver {

  datatype Id = Id(text: string)

  const REMEMBERED: nat := 1000

  /** A delivery as it arrives: refused with a status, or an event. */
  datatype Delivery = Refused(status: nat) | Event(id: Id)

  datatype Reply = Reply(status: nat, handled: bool)

  function Last(log: seq<Id>): (r: seq<Id>) {
    if |log| <= REMEMBERED then log else log[|log| - REMEMBERED..]
  }

  function Handled(log: seq<Id>, deliveries: seq<Delivery>): seq<Id>
    decreases |deliveries|
  {
    if deliveries == [] then log
    else
      var d := deliveries[0];
      Handled(if d.Event? && d.id !in Last(log) then log + [d.id] else log, deliveries[1..])
  }

  class Server {
    /** The ids last handled, oldest first. */
    var seen: seq<Id>
    ghost var log: seq<Id>

    ghost predicate Valid()
      reads this
    {
      seen == Last(log)
    }

    constructor ()
      ensures Valid() && log == []
    {
      seen := [];
      log := [];
    }

    method Post(d: Delivery) returns (reply: Reply)
      requires Valid()
      modifies this
      ensures Valid() && |seen| <= REMEMBERED
      ensures log == Handled(old(log), [d])
      ensures reply == match d
                         case Refused(status) => Reply(status, false)
                         case Event(id) => Reply(204, id !in old(seen))
    {
      assert Handled(log, [d]) == Handled(if d.Event? && d.id !in Last(log) then log + [d.id] else log, []);
      if d.Refused? {
        return Reply(d.status, false);
      }
      if d.id in seen {
        return Reply(204, false);
      }
      if |seen| == REMEMBERED {
        seen := seen[1..];
      }
      seen := seen + [d.id];
      log := log + [d.id];
      return Reply(204, true);
    }
  }

  /** No two of any thousand and one neighbours are the same. */
  ghost predicate Apart(log: seq<Id>) {
    forall i, j :: 0 <= i < j < |log| && log[i] == log[j] ==> j - i > REMEMBERED
  }

  /** An event is handled again only after a thousand others, all different from it,
      were handled in between; an id delivered again sooner is not. */
  lemma {:induction false} HandledApart(log: seq<Id>, deliveries: seq<Delivery>)
    requires Apart(log)
    ensures Apart(Handled(log, deliveries))
    ensures log <= Handled(log, deliveries)
    decreases |deliveries|
  {
    if deliveries != [] {
      var d := deliveries[0];
      if d.Event? && d.id !in Last(log) {
        var longer := log + [d.id];
        forall i | 0 <= i < |log| && log[i] == d.id ensures |log| - i > REMEMBERED {
          if |log| - i <= REMEMBERED {
            LastHas(log, i);
            assert false;
          }
        }
        HandledApart(longer, deliveries[1..]);
        assert log <= longer;
      } else {
        HandledApart(log, deliveries[1..]);
      }
    }
  }

  lemma LastHas(log: seq<Id>, i: nat)
    requires i < |log| && |log| - i <= REMEMBERED
    ensures log[i] in Last(log)
  {
    if |log| > REMEMBERED {
      assert Last(log)[i - (|log| - REMEMBERED)] == log[i];
    }
  }

  /** Whether an event was ever handled, as a receiver that forgets nothing knows. */
  function HandledOnce(log: seq<Id>, deliveries: seq<Delivery>): seq<Id>
    decreases |deliveries|
  {
    if deliveries == [] then log
    else
      var d := deliveries[0];
      HandledOnce(if d.Event? && d.id !in log then log + [d.id] else log, deliveries[1..])
  }

  /** It handles what one that forgets nothing would, exactly when none of its events
      was handled twice. */
  lemma {:induction false} AgreesWithUnbounded(log: seq<Id>, deliveries: seq<Delivery>)
    requires forall i, j :: 0 <= i < j < |log| ==> log[i] != log[j]
    ensures
      var all := Handled(log, deliveries);
      all == HandledOnce(log, deliveries) <==> forall i, j :: 0 <= i < j < |all| ==> all[i] != all[j]
    decreases |deliveries|
  {
    OnceDistinct(log, deliveries);
    if deliveries != [] {
      var d := deliveries[0];
      LastWithin(log);
      if d.Event? && d.id !in Last(log) && d.id in log {
        var i :| 0 <= i < |log| && log[i] == d.id;
        var all := Handled(log + [d.id], deliveries[1..]);
        HandledGrows(log + [d.id], deliveries[1..]);
        assert all[i] == all[|log|];
      } else {
        AgreesWithUnbounded(if d.Event? && d.id !in Last(log) then log + [d.id] else log, deliveries[1..]);
      }
    }
  }

  lemma LastWithin(log: seq<Id>)
    ensures forall id :: id in Last(log) ==> id in log
  {
  }

  lemma {:induction false} HandledGrows(log: seq<Id>, deliveries: seq<Delivery>)
    ensures log <= Handled(log, deliveries)
    decreases |deliveries|
  {
    if deliveries != [] {
      var d := deliveries[0];
      HandledGrows(if d.Event? && d.id !in Last(log) then log + [d.id] else log, deliveries[1..]);
    }
  }

  lemma {:induction false} OnceDistinct(log: seq<Id>, deliveries: seq<Delivery>)
    requires forall i, j :: 0 <= i < j < |log| ==> log[i] != log[j]
    ensures forall i, j :: 0 <= i < j < |HandledOnce(log, deliveries)| ==>
              HandledOnce(log, deliveries)[i] != HandledOnce(log, deliveries)[j]
    decreases |deliveries|
  {
    if deliveries != [] {
      var d := deliveries[0];
      OnceDistinct(if d.Event? && d.id !in log then log + [d.id] else log, deliveries[1..]);
    }
  }

  /** Short of a thousand and one events it has forgotten none. */
  lemma FewEventsForgetNothing(deliveries: seq<Delivery>)
    requires |deliveries| <= REMEMBERED
    ensures Handled([], deliveries) == HandledOnce([], deliveries)
  {
    HandledApart([], deliveries);
    HandledShort([], deliveries);
    AgreesWithUnbounded([], deliveries);
  }

  lemma {:induction false} HandledShort(log: seq<Id>, deliveries: seq<Delivery>)
    ensures |Handled(log, deliveries)| <= |log| + |deliveries|
    decreases |deliveries|
  {
    if deliveries != [] {
      var d := deliveries[0];
      HandledShort(if d.Event? && d.id !in Last(log) then log + [d.id] else log, deliveries[1..]);
    }
  }
}
