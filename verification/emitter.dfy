/**
  The typed event emitter every front-end adapter extends, through which it
  announces new threads, messages and closed threads to whatever listens: a
  table from event name to the ordered list of listeners registered for it. Listeners are opaque identifiers compared by identity, as `!==`
  compares functions.
 */
module Emitter {

  /**
    The listeners of `e`, or none when the table has no entry for it. Where
    no event maps to an empty list, an event has an entry exactly when it has
    listeners.
   */
  function Registered<E, L>(table: map<E, seq<L>>, e: E): (r: seq<L>)
    ensures e in table ==> r == table[e]
    ensures NoEmptyLists(table) ==> (r != [] <==> e in table)
  {
    if e in table then table[e] else []
  }

  /** The table's invariant: no event maps to an empty list. */
  ghost predicate NoEmptyLists<E, L>(table: map<E, seq<L>>) {
    forall e :: e in table ==> table[e] != []
  }

  /** The list with every occurrence of the listener removed and the rest kept in order. */
  function Without<L(==)>(s: seq<L>, l: L): (r: seq<L>)
    ensures l !in r
    ensures |r| <= |s|
  {
    if s == [] then []
    else (if s[0] == l then [] else [s[0]]) + Without(s[1..], l)
  }

  /**
    Filtering keeps every other listener exactly as often as it was
    registered and drops every occurrence of the removed one.
   */
  lemma {:induction false} WithoutCounts<L>(s: seq<L>, l: L)
    ensures multiset(Without(s, l)) == multiset(s)[l := 0]
  {
    if s != [] {
      WithoutCounts(s[1..], l);
      assert s == [s[0]] + s[1..];
    }
  }

  /** Filtering works piece by piece, so the kept listeners stay in order. */
  lemma {:induction false} WithoutAppend<L>(a: seq<L>, b: seq<L>, l: L)
    ensures Without(a + b, l) == Without(a, l) + Without(b, l)
  {
    if a == [] {
      assert a + b == b;
    } else {
      assert (a + b)[0] == a[0];
      assert (a + b)[1..] == a[1..] + b;
      WithoutAppend(a[1..], b, l);
    }
  }

  /** Filtering out a listener that is not there changes nothing. */
  lemma {:induction false} WithoutAbsent<L>(s: seq<L>, l: L)
    requires l !in s
    ensures Without(s, l) == s
  {
    if s != [] {
      WithoutAbsent(s[1..], l);
      assert [s[0]] + s[1..] == s;
    }
  }

  /** `on`: appends the listener to the event's list, creating the list when absent. */
  function AfterOn<E, L>(table: map<E, seq<L>>, e: E, l: L): (t: map<E, seq<L>>)
    ensures e in t && t[e] == Registered(table, e) + [l]
    ensures forall e' :: e' in table && e' != e ==> e' in t && t[e'] == table[e']
    ensures forall e' :: e' in t && e' != e ==> e' in table
    ensures NoEmptyLists(table) ==> NoEmptyLists(t)
  {
    table[e := Registered(table, e) + [l]]
  }

  /**
    `off`: drops every occurrence of the listener from the event's list, and
    the entry itself when nothing is left; an event without an entry is left
    alone.
   */
  function AfterOff<E, L(==)>(table: map<E, seq<L>>, e: E, l: L): (t: map<E, seq<L>>)
    ensures Registered(t, e) == Without(Registered(table, e), l)
    ensures e in t <==> Without(Registered(table, e), l) != []
    ensures forall e' :: e' in table && e' != e ==> e' in t && t[e'] == table[e']
    ensures forall e' :: e' in t && e' != e ==> e' in table
    ensures NoEmptyLists(table) ==> NoEmptyLists(t)
  {
    if e !in table then table
    else
      var next := Without(table[e], l);
      if |next| > 0 then table[e := next] else table - {e}
  }

  /** `off` on an event that has no list is a no-op. */
  lemma OffUnregisteredIsNoop<E, L>(table: map<E, seq<L>>, e: E, l: L)
    requires e !in table
    ensures AfterOff(table, e, l) == table
  {
  }

  /** `off` twice has the same effect as `off` once. */
  lemma OffIdempotent<E, L>(table: map<E, seq<L>>, e: E, l: L)
    ensures AfterOff(AfterOff(table, e, l), e, l) == AfterOff(table, e, l)
  {
    var once := AfterOff(table, e, l);
    WithoutAbsent(Without(Registered(table, e), l), l);
    assert Registered(AfterOff(once, e, l), e) == Registered(once, e);
    assert AfterOff(once, e, l).Keys == once.Keys;
  }

  /** Removing a listener just added, when it was not registered before, restores the table. */
  lemma OnThenOff<E, L>(table: map<E, seq<L>>, e: E, l: L)
    requires NoEmptyLists(table)
    requires l !in Registered(table, e)
    ensures AfterOff(AfterOn(table, e, l), e, l) == table
  {
    var s := Registered(table, e);
    var added := AfterOn(table, e, l);
    var t := AfterOff(added, e, l);
    WithoutOwnAppend(s, l);
    assert Registered(t, e) == s;
    assert t.Keys == table.Keys;
  }

  /** Filtering out a listener appended to a list that lacked it gives the list back. */
  lemma WithoutOwnAppend<L>(s: seq<L>, l: L)
    requires l !in s
    ensures Without(s + [l], l) == s
  {
    WithoutAppend(s, [l], l);
    WithoutAbsent(s, l);
    assert Without([l], l) == [];
  }

  /** One invocation: the listener and the arguments it was called with. */
  datatype Call<L, A> = Call(listener: L, args: A)

  class TypedEmitter<E(==), L(==)> {
    var listeners: map<E, seq<L>>

    ghost predicate Valid()
      reads this
    {
      NoEmptyLists(listeners)
    }

    constructor ()
      ensures Valid() && listeners == map[]
    {
      listeners := map[];
    }

    /** `on`: registers the listener for the event. */
    method On(e: E, l: L)
      requires Valid()
      modifies this
      ensures Valid()
      ensures listeners == AfterOn(old(listeners), e, l)
    {
      var arr := if e in listeners then listeners[e] else [];
      if e !in listeners {
        listeners := listeners[e := arr];
      }
      listeners := listeners[e := arr + [l]];
    }

    /** `off`: unregisters every registration of the listener for the event. */
    method Off(e: E, l: L)
      requires Valid()
      modifies this
      ensures Valid()
      ensures listeners == AfterOff(old(listeners), e, l)
    {
      if e !in listeners {
        return;
      }
      var next := Without(listeners[e], l);
      if |next| > 0 {
        listeners := listeners[e := next];
      } else {
        listeners := listeners - {e};
      }
    }

    /**
      `emit(event, ...args)`: calls every listener registered for the event
      once per registration, in registration order, with the same arguments;
      returns the calls made.
     */
    method Emit<A>(e: E, args: A) returns (calls: seq<Call<L, A>>)
      ensures |calls| == |Registered(listeners, e)|
      ensures forall k :: 0 <= k < |calls| ==> calls[k] == Call(Registered(listeners, e)[k], args)
    {
      calls := [];
      if e !in listeners {
        return;
      }
      var arr := listeners[e];
      var i := 0;
      while i < |arr|
        invariant 0 <= i <= |arr|
        invariant |calls| == i
        invariant forall k :: 0 <= k < i ==> calls[k] == Call(arr[k], args)
      {
        calls := calls + [Call(arr[i], args)];
        i := i + 1;
      }
    }
  }
}
