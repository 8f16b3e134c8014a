/** One small state file, replaced as a whole, and what a crash may leave of it. */
module DurableState {
  import opened Wrappers

  class StateFile<D(!new, ==)> {
    var current: Option<D>
    // the contents that a crash of the machine may leave; just the current one after a successful write
    var possible: set<Option<D>>

    ghost predicate Valid()
      reads this
    {
      current in possible
    }

    constructor ()
      ensures Valid() && current == None && possible == {None}
    {
      current, possible := None, {None};
    }

    /**
      Write a temporary file, synchronize it, replace the state file, synchronize the directory. Any step may fail;
      only success makes the document durable, but a failure may come after the document became visible.
     */
    method Replace(d: D) returns (ok: bool)
      requires Valid()
      modifies this
      ensures Valid()
      ensures ok ==> current == Some(d) && possible == {Some(d)}
      ensures !ok ==> (current == old(current) && possible == old(possible))
                      || (current == Some(d) && possible == old(possible) + {Some(d)})
    {
      var written: bool, synchronized: bool := *, *;
      if !written {
        return false;
      }
      current, possible := Some(d), possible + {Some(d)};
      if !synchronized {
        return false;
      }
      possible := {Some(d)};
      ok := true;
    }

    /** The machine stops and comes back with one of the possible contents. */
    method Crash()
      requires Valid()
      modifies this
      ensures Valid() && current in old(possible) && possible == {current}
    {
      var left :| left in possible;
      current, possible := left, {left};
    }
  }
}
