/**
 * The observer list of a subject. Each entry always refers to its observer
 * weakly and sometimes also holds it; an entry is live while its observer
 * still exists, which a held observer always does. Observers are named by
 * number, and the set of observers still in existence is given by the
 * caller.
 */
module Observers {
  /** An observer entry: whom it refers to, and whether it also holds it. */
  datatype Entry = Entry(observer: nat, strong: bool)

  predicate Live(e: Entry, alive: set<nat>)
  {
    e.strong || e.observer in alive
  }

  /** The live entries, in order. */
  function LiveEntries(l: seq<Entry>, alive: set<nat>): (r: seq<Entry>)
    ensures |r| <= |l|
    ensures forall k :: 0 <= k < |r| ==> Live(r[k], alive) && r[k] in l
  {
    if l == [] then []
    else (if Live(l[0], alive) then [l[0]] else []) + LiveEntries(l[1..], alive)
  }

  /**
   * The list after detaching o: entries are walked from the front; dead
   * ones are dropped, the first live entry for o is removed and the walk
   * ends there.
   */
  function Detached(l: seq<Entry>, o: nat, alive: set<nat>): seq<Entry>
  {
    if l == [] then []
    else if !Live(l[0], alive) then Detached(l[1..], o, alive)
    else if l[0].observer == o then l[1..]
    else [l[0]] + Detached(l[1..], o, alive)
  }

  /** Without a live entry for o, detaching only drops the dead entries, the live ones keeping their order. */
  lemma {:induction false} DetachedWithoutMatch(l: seq<Entry>, o: nat, alive: set<nat>)
    requires forall k :: 0 <= k < |l| && Live(l[k], alive) ==> l[k].observer != o
    ensures Detached(l, o, alive) == LiveEntries(l, alive)
  {
    if l != [] {
      DetachedWithoutMatch(l[1..], o, alive);
    }
  }

  /**
   * With m the first live entry for o: the dead entries before it are
   * dropped, it is removed, and the entries after it are untouched.
   */
  lemma {:induction false} DetachedAtMatch(l: seq<Entry>, o: nat, alive: set<nat>, m: nat)
    requires m < |l| && Live(l[m], alive) && l[m].observer == o
    requires forall k :: 0 <= k < m && Live(l[k], alive) ==> l[k].observer != o
    ensures Detached(l, o, alive) == LiveEntries(l[..m], alive) + l[m + 1..]
  {
    if m == 0 {
      assert l[..0] == [];
    } else {
      var t := l[1..];
      assert forall k :: 0 <= k < m - 1 ==> t[k] == l[k + 1];
      DetachedAtMatch(t, o, alive, m - 1);
      assert t[..m - 1] == l[..m][1..];
      assert t[m..] == l[m + 1..];
      var head := if Live(l[0], alive) then [l[0]] else [];
      assert LiveEntries(l[..m], alive) == head + LiveEntries(t[..m - 1], alive);
      if Live(l[0], alive) {
        assert l[0].observer != o;
        assert Detached(l, o, alive) == [l[0]] + Detached(t, o, alive);
      } else {
        assert Detached(l, o, alive) == Detached(t, o, alive);
      }
    }
  }

  class Subject {
    /** Registered observers, in registration order. */
    var observers: seq<Entry>

    constructor ()
      ensures observers == []
    {
      observers := [];
    }

    /** Registers o by a weak reference only, at the end. */
    method AttachObserver(o: nat)
      modifies this
      ensures observers == old(observers) + [Entry(o, false)]
    {
      observers := observers + [Entry(o, false)];
    }

    /** Registers o and holds it, at the end. */
    method AttachObserverStrong(o: nat)
      modifies this
      ensures observers == old(observers) + [Entry(o, true)]
    {
      observers := observers + [Entry(o, true)];
    }

    /** Removes the first live entry for o, erasing the dead entries met before it. */
    method DetachObserver(o: nat, alive: set<nat>)
      modifies this
      ensures observers == Detached(old(observers), o, alive)
    {
      var i := 0;
      while i < |observers|
        invariant 0 <= i <= |observers|
        invariant Detached(old(observers), o, alive) == observers[..i] + Detached(observers[i..], o, alive)
        decreases |observers| - i
      {
        if Live(observers[i], alive) {
          if observers[i].observer == o {
            assert Detached(observers[i..], o, alive) == observers[i + 1..];
            observers := observers[..i] + observers[i + 1..];
            return;
          }
          assert Detached(observers[i..], o, alive) == [observers[i]] + Detached(observers[i + 1..], o, alive) by {
            assert observers[i..][1..] == observers[i + 1..];
          }
          assert observers[..i + 1] == observers[..i] + [observers[i]];
          i := i + 1;
        } else {
          assert Detached(observers[i..], o, alive) == Detached(observers[i + 1..], o, alive) by {
            assert observers[i..][1..] == observers[i + 1..];
          }
          ghost var prefix := observers[..i];
          observers := observers[..i] + observers[i + 1..];
          assert observers[..i] == prefix;
        }
      }
      assert observers[i..] == [];
      assert observers[..i] == observers;
    }

    /** The observers notified of an event: those of the live entries, in order. */
    function LiveObservers(alive: set<nat>): (r: seq<nat>)
      reads this
      ensures |r| == |LiveEntries(observers, alive)|
    {
      ObserversOf(LiveEntries(observers, alive))
    }
  }

  /** The observers the entries refer to. */
  function ObserversOf(l: seq<Entry>): (r: seq<nat>)
    ensures |r| == |l|
    ensures forall k :: 0 <= k < |l| ==> r[k] == l[k].observer
  {
    if l == [] then [] else [l[0].observer] + ObserversOf(l[1..])
  }
}
