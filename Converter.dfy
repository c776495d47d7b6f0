// `Converter`: closes the builder's flags under their requirements, and
// wraps the lowered user code in the Racket preamble and `main` function.

module Converter {
  import opened Wrappers
  import opened ExtraCodes

  /** The requirement table, looked up for any flag. */
  function Req(f: Flag): set<Flag>
  {
    TableIsTotal();
    Requirements[f]
  }

  function Elems(q: seq<Flag>): set<Flag>
  {
    set x | x in q
  }

  /** The flags the builder switched on. */
  function Active(flags: map<Flag, bool>): set<Flag>
  {
    set f | f in flags && flags[f]
  }

  /** The flags some flag of `s` requires. */
  function OneStep(s: set<Flag>): set<Flag>
  {
    set f, r | f in s && r in Req(f) :: r
  }

  /** The flags whose snippets the program needs: the active ones and what
      they require. */
  function Closure(s: set<Flag>): set<Flag>
  {
    s + OneStep(s)
  }

  predicate ClosedUnderRequirements(s: set<Flag>)
  {
    forall f, r :: f in s && r in Req(f) ==> r in s
  }

  lemma LeafRequirements(f: Flag, r: Flag)
    requires r in Req(f)
    ensures Req(r) == {}
  {
    TableIsTotal();
    RequirementsAreLeaves(f, r);
  }

  /** The closure is closed, because required flags require nothing. */
  lemma ClosureIsClosed(s: set<Flag>)
    ensures ClosedUnderRequirements(Closure(s))
  {
    forall f, r | f in Closure(s) && r in Req(f)
      ensures r in Closure(s)
    {
      if f !in s {
        var g :| g in s && f in Req(g);
        LeafRequirements(g, f);
      }
    }
  }

  /** ... and it is the least closed set holding `s`. */
  lemma ClosureIsLeast(s: set<Flag>, t: set<Flag>)
    requires s <= t && ClosedUnderRequirements(t)
    ensures Closure(s) <= t
  {
  }

  /** Sum over the queue of one plus the number of requirements: the
      measure that bounds the work still to do. */
  function Weight(q: seq<Flag>): nat
  {
    if q == [] then 0 else Weight(q[..|q| - 1]) + 1 + |Req(q[|q| - 1])|
  }

  lemma WeightAppend(q: seq<Flag>, r: Flag)
    ensures Weight(q + [r]) == Weight(q) + 1 + |Req(r)|
  {
    assert (q + [r])[..|q|] == q;
  }

  /** `Converter.compileBuildFlags`: a LIFO work list seeded with the active
      flags; each popped flag is kept and its requirements not yet kept are
      pushed. The dictionary is walked in an unspecified order, which only
      changes the order of the work list. */
  method CompileBuildFlags(flags: map<Flag, bool>) returns (ret: set<Flag>)
    ensures ret == Closure(Active(flags))
  {
    ghost var goal := Closure(Active(flags));
    ClosureIsClosed(Active(flags));
    ret := {};
    var queue := ActiveQueue(flags);
    while |queue| > 0
      invariant Active(flags) <= ret + Elems(queue)
      invariant ret + Elems(queue) <= goal
      invariant forall f :: f in ret ==> Req(f) <= ret + Elems(queue)
      decreases Weight(queue)
    {
      ghost var before := queue;
      var flag := queue[|queue| - 1];
      queue := queue[..|queue| - 1];
      assert Elems(before) == Elems(queue) + {flag};
      ret := ret + {flag};
      queue := PushRequirements(flag, ret, queue);
    }
    ClosureIsLeast(Active(flags), ret);
  }

  /** The work list seeded with the active flags, walking the dictionary. */
  method ActiveQueue(flags: map<Flag, bool>) returns (queue: seq<Flag>)
    ensures Elems(queue) == Active(flags)
  {
    queue := [];
    var keys := flags.Keys;
    while keys != {}
      invariant keys <= flags.Keys
      invariant Elems(queue) <= Active(flags)
      invariant forall f :: f in flags.Keys - keys && flags[f] ==> f in queue
      decreases |keys|
    {
      var flag :| flag in keys;
      if flags[flag] {
        queue := queue + [flag];
      }
      keys := keys - {flag};
    }
  }

  /** Push the requirements of `flag` not kept yet; since they require
      nothing, each adds one to the weight. */
  method PushRequirements(flag: Flag, ret: set<Flag>, queue: seq<Flag>) returns (q: seq<Flag>)
    ensures Elems(q) == Elems(queue) + (Req(flag) - ret)
    ensures Weight(q) <= Weight(queue) + |Req(flag)|
  {
    q := queue;
    var pending := Req(flag);
    while pending != {}
      invariant pending <= Req(flag)
      invariant Elems(q) == Elems(queue) + ((Req(flag) - pending) - ret)
      invariant Weight(q) + |pending| <= Weight(queue) + |Req(flag)|
      decreases |pending|
    {
      var required :| required in pending;
      var next := q;
      if required !in ret {
        LeafRequirements(flag, required);
        WeightAppend(q, required);
        next := q + [required];
      }
      PushStep(q, next, queue, pending, required, ret, Req(flag));
      q := next;
      pending := pending - {required};
    }
  }

  /** One turn of the push loop keeps the work list's members in step with
      the requirements handled so far. */
  lemma PushStep(q: seq<Flag>, next: seq<Flag>, queue: seq<Flag>, pending: set<Flag>, required: Flag,
                 ret: set<Flag>, reqs: set<Flag>)
    requires required in pending && pending <= reqs
    requires next == if required !in ret then q + [required] else q
    requires Elems(q) == Elems(queue) + ((reqs - pending) - ret)
    ensures Elems(next) == Elems(queue) + ((reqs - (pending - {required})) - ret)
  {
    assert reqs - (pending - {required}) == (reqs - pending) + {required};
    if required !in ret {
      assert Elems(q + [required]) == Elems(q) + {required};
    }
  }

  /** The order in which `transpile` tests the flags and appends their
      snippets. */
  const EmitOrder: seq<Flag> := [
    NAME_IS_MAIN, GROWABLE_VECTOR_REQUIRE, GROWABLE_VECTOR, DEEPCOPY, PRINT, EQUAL,
    NOT_EQUAL, IN, INPUT, TO_INT, TO_FLOAT, TO_STR, TO_BOOL, TO_LIST
  ]

  /** A flag's position in `EmitOrder`. */
  function EmitIndex(f: Flag): (k: nat)
    ensures k < |EmitOrder| && EmitOrder[k] == f
  {
    match f
    case NAME_IS_MAIN => 0
    case GROWABLE_VECTOR_REQUIRE => 1
    case GROWABLE_VECTOR => 2
    case DEEPCOPY => 3
    case PRINT => 4
    case EQUAL => 5
    case NOT_EQUAL => 6
    case IN => 7
    case INPUT => 8
    case TO_INT => 9
    case TO_FLOAT => 10
    case TO_STR => 11
    case TO_BOOL => 12
    case TO_LIST => 13
  }

  /** Each snippet comes after the snippets it requires. */
  lemma RequirementsComeFirst(f: Flag, r: Flag)
    requires r in Req(f)
    ensures EmitIndex(r) < EmitIndex(f)
  {
    TableIsTotal();
  }

  /** The flags of `order` that are in `s`, in order. */
  function Emitted(order: seq<Flag>, s: set<Flag>): seq<Flag>
  {
    if order == [] then []
    else (if order[0] in s then [order[0]] else []) + Emitted(order[1..], s)
  }

  /** The lines appended to "#lang racket\n", one per emitted flag. */
  function SnippetLines(fs: seq<Flag>, text: Flag -> string): string
  {
    if fs == [] then "" else text(fs[0]) + "\n" + SnippetLines(fs[1..], text)
  }

  function Preamble(s: set<Flag>): string
  {
    "#lang racket\n" + SnippetLines(Emitted(EmitOrder, s), Snippet)
  }

  /** Strictly increasing by emit position. */
  predicate InEmitOrder(q: seq<Flag>)
  {
    forall i, j :: 0 <= i < j < |q| ==> EmitIndex(q[i]) < EmitIndex(q[j])
  }

  lemma EmitOrderIsOrdered()
    ensures InEmitOrder(EmitOrder)
  {
    forall i | 0 <= i < |EmitOrder|
      ensures EmitIndex(EmitOrder[i]) == i
    {
    }
  }

  /** Filtering keeps exactly the members of `s`. */
  lemma {:induction false} EmittedMembers(order: seq<Flag>, s: set<Flag>)
    ensures Elems(Emitted(order, s)) == Elems(order) * s
  {
    if order != [] {
      EmittedMembers(order[1..], s);
      assert order == [order[0]] + order[1..];
      assert Elems(order) == {order[0]} + Elems(order[1..]);
      var head := if order[0] in s then [order[0]] else [];
      assert Emitted(order, s) == head + Emitted(order[1..], s);
      assert Elems(head + Emitted(order[1..], s)) == Elems(head) + Elems(Emitted(order[1..], s));
    }
  }

  /** Filtering keeps the order. */
  lemma {:induction false} EmittedOrdered(order: seq<Flag>, s: set<Flag>)
    requires InEmitOrder(order)
    ensures InEmitOrder(Emitted(order, s))
  {
    if order != [] {
      var tail := Emitted(order[1..], s);
      EmittedOrdered(order[1..], s);
      if order[0] in s {
        EmittedMembers(order[1..], s);
        forall j | 0 <= j < |tail|
          ensures EmitIndex(order[0]) < EmitIndex(tail[j])
        {
          assert tail[j] in Elems(tail);
          var q :| 0 <= q < |order[1..]| && order[1..][q] == tail[j];
          assert order[q + 1] == tail[j];
        }
      }
    }
  }

  /** Every flag of `s` gets its snippet, once, and a snippet's requirements
      (when `s` is closed, as `CompileBuildFlags` makes it) come before it in
      the preamble. */
  lemma PreambleOrder(s: set<Flag>)
    requires ClosedUnderRequirements(s)
    ensures Elems(Emitted(EmitOrder, s)) == s
    ensures InEmitOrder(Emitted(EmitOrder, s))
    ensures forall k, r :: 0 <= k < |Emitted(EmitOrder, s)| && r in Req(Emitted(EmitOrder, s)[k]) ==>
      exists j :: 0 <= j < k && Emitted(EmitOrder, s)[j] == r
  {
    var e := Emitted(EmitOrder, s);
    EmittedMembers(EmitOrder, s);
    EmitOrderIsOrdered();
    EmittedOrdered(EmitOrder, s);
    EmitOrderIsTotal();
    assert Elems(e) == s;
    forall k, r | 0 <= k < |e| && r in Req(e[k])
      ensures exists j :: 0 <= j < k && e[j] == r
    {
      RequiredBefore(e, s, k, r);
    }
  }

  /** Every flag has a place in `EmitOrder`. */
  lemma EmitOrderIsTotal()
    ensures forall f: Flag :: f in Elems(EmitOrder)
  {
    forall f: Flag
      ensures f in Elems(EmitOrder)
    {
      assert EmitOrder[EmitIndex(f)] == f;
    }
  }

  /** In an ordered list holding a closed set, a requirement of the `k`-th
      flag sits before it. */
  lemma RequiredBefore(e: seq<Flag>, s: set<Flag>, k: int, r: Flag)
    requires InEmitOrder(e) && Elems(e) == s && ClosedUnderRequirements(s)
    requires 0 <= k < |e| && r in Req(e[k])
    ensures exists j :: 0 <= j < k && e[j] == r
  {
    assert e[k] in Elems(e);
    assert r in Elems(e);
    var j :| 0 <= j < |e| && e[j] == r;
    RequirementsComeFirst(e[k], r);
    if j >= k {
      assert false;
    }
  }
}
