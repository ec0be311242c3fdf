/** The lifetime of the one T that an Optional's inline storage can hold.

    The storage of `keel::Optional<T>` is raw bytes; a T lives there only between a
    placement-new and the matching explicit destructor call.  This module records those
    two events as a log and states the discipline the container must keep: constructions
    and destructions alternate, starting with a construction, so that no live T is ever
    overwritten and no dead storage is ever destroyed. */
module Lifetime {

  /** One lifetime event of the contained T. */
  datatype Event<T> =
    | Constructed(value: T)  // placement-new of `value` into the storage
    | Destroyed(value: T)    // explicit `~T()` call on the value held in the storage

  /** Constructions and destructions alternate, starting with a construction. */
  ghost predicate WellNested<T>(log: seq<Event<T>>) {
    forall i :: 0 <= i < |log| ==> (log[i].Constructed? <==> i % 2 == 0)
  }

  /** After a well-nested `log`, the storage holds a live T exactly when the last
      event was a construction, that is, when the log has odd length. */
  ghost predicate LiveAfter<T>(log: seq<Event<T>>) {
    |log| % 2 == 1
  }

  /** Number of values constructed into the storage. */
  ghost function Constructions<T>(log: seq<Event<T>>): nat {
    if log == [] then 0
    else (if log[0].Constructed? then 1 else 0) + Constructions(log[1..])
  }

  /** Number of values destroyed in the storage. */
  ghost function Destructions<T>(log: seq<Event<T>>): nat {
    if log == [] then 0
    else (if log[0].Destroyed? then 1 else 0) + Destructions(log[1..])
  }

  /** In a well-nested log every construction is matched by exactly one destruction,
      except the construction of the value still live at the end. */
  lemma {:induction false} Balance<T>(log: seq<Event<T>>)
    requires WellNested(log)
    ensures Constructions(log) == Destructions(log) + (if LiveAfter(log) then 1 else 0)
  {
    if |log| >= 2 {
      var rest := log[2..];
      assert WellNested(rest) by {
        forall i | 0 <= i < |rest|
          ensures rest[i].Constructed? <==> i % 2 == 0
        {
          assert rest[i] == log[i + 2];
        }
      }
      Balance(rest);
      assert log[1..][1..] == rest;
      assert log[0].Constructed? && log[1].Destroyed?;
    } else if |log| == 1 {
      assert log[0].Constructed?;
      assert log[1..] == [];
    }
  }
}
