/**
 The linked-image stack bound: a memoised recursion over the call graph that refuses cycles and
 unresolved callees and otherwise finds the costliest call chain.
 */
module StackBound {
  import opened Outcomes

  /** Frame sizes and callees of every linked function. */
  datatype Graph = Graph(frames: map<string, nat>, edges: map<string, set<string>>) {
    predicate Valid() {
      frames.Keys == edges.Keys
    }
  }

  type CallGraph = g: Graph | g.Valid() witness Graph(map[], map[])

  /** Each function on the chain calls the next. */
  ghost predicate IsChain(g: CallGraph, p: seq<string>) {
    |p| > 0 && forall i :: 0 <= i < |p| - 1 ==> p[i] in g.edges && p[i + 1] in g.edges[p[i]]
  }

  ghost predicate IsChainFrom(g: CallGraph, name: string, p: seq<string>) {
    IsChain(g, p) && p[0] == name
  }

  ghost predicate Resolved(g: CallGraph, p: seq<string>) {
    forall i :: 0 <= i < |p| ==> p[i] in g.frames
  }

  ghost predicate Repeats(p: seq<string>) {
    exists i, j :: 0 <= i < j < |p| && p[i] == p[j]
  }

  /** From name a chain runs into a cycle or out of the image. */
  ghost predicate IsDefect(g: CallGraph, name: string, p: seq<string>) {
    IsChainFrom(g, name, p) && (Repeats(p) || !Resolved(g, p))
  }

  function FrameSum(g: CallGraph, p: seq<string>): nat
    requires Resolved(g, p)
  {
    if p == [] then 0 else g.frames[p[0]] + FrameSum(g, p[1..])
  }

  // ----- the order of Python tuples ------------------------------------------------------

  predicate NameLess(a: string, b: string) {
    b != [] && (a == [] || a[0] < b[0] || (a[0] == b[0] && NameLess(a[1..], b[1..])))
  }

  predicate PathLess(a: seq<string>, b: seq<string>) {
    b != [] && (a == [] || NameLess(a[0], b[0]) || (a[0] == b[0] && PathLess(a[1..], b[1..])))
  }

  predicate Less(a: (nat, seq<string>), b: (nat, seq<string>)) {
    a.0 < b.0 || (a.0 == b.0 && PathLess(a.1, b.1))
  }

  /** Two names that are not ordered either way are equal. */
  lemma {:induction false} NamesTotal(a: string, b: string)
    ensures NameLess(a, b) ==> !NameLess(b, a)
    ensures !NameLess(a, b) && !NameLess(b, a) ==> a == b
  {
    if a != [] && b != [] && a[0] == b[0] {
      NamesTotal(a[1..], b[1..]);
      if a[1..] == b[1..] {
        assert a == [a[0]] + a[1..] && b == [b[0]] + b[1..];
      }
    }
  }

  lemma {:induction false} NamesTransitive(a: string, b: string, c: string)
    requires NameLess(a, b) && NameLess(b, c)
    ensures NameLess(a, c)
  {
    if a != [] && a[0] == b[0] && b[0] == c[0] {
      NamesTransitive(a[1..], b[1..], c[1..]);
    }
  }

  lemma {:induction false} PathsTotal(a: seq<string>, b: seq<string>)
    ensures PathLess(a, b) ==> !PathLess(b, a)
    ensures !PathLess(a, b) && !PathLess(b, a) ==> a == b
  {
    if a != [] && b != [] {
      NamesTotal(a[0], b[0]);
      PathsTotal(a[1..], b[1..]);
      if a[0] == b[0] && a[1..] == b[1..] {
        assert a == [a[0]] + a[1..] && b == [b[0]] + b[1..];
      }
    }
  }

  lemma {:induction false} PathsTransitive(a: seq<string>, b: seq<string>, c: seq<string>)
    requires PathLess(a, b) && PathLess(b, c)
    ensures PathLess(a, c)
  {
    if a != [] {
      if NameLess(a[0], b[0]) && NameLess(b[0], c[0]) {
        NamesTransitive(a[0], b[0], c[0]);
      } else if a[0] == b[0] && b[0] == c[0] {
        NamesTotal(a[0], b[0]);
        PathsTransitive(a[1..], b[1..], c[1..]);
      }
    }
  }

  /** max() over tuples is well defined: not being less is transitive, and being less is one way only. */
  lemma LessIsWeakOrder(a: (nat, seq<string>), b: (nat, seq<string>), c: (nat, seq<string>))
    ensures Less(a, b) ==> !Less(b, a)
    ensures !Less(a, b) && !Less(b, c) ==> !Less(a, c)
  {
    PathsTotal(a.1, b.1);
    PathsTotal(b.1, c.1);
    if PathLess(a.1, c.1) && !PathLess(a.1, b.1) && PathLess(b.1, a.1) {
      PathsTransitive(b.1, a.1, c.1);
    }
  }

  /** A common first function does not change the order of two chains. */
  lemma LessCons(a: (nat, seq<string>), b: (nat, seq<string>), frame: nat, name: string)
    ensures Less((frame + a.0, [name] + a.1), (frame + b.0, [name] + b.1)) <==> Less(a, b)
  {
    NamesTotal(name, name);
    assert ([name] + a.1)[1..] == a.1 && ([name] + b.1)[1..] == b.1;
  }

  /**
   The value is the frame sum of a real chain, and no chain from the function is greater in tuple order:
   none costs more, and among those that cost the same this one is last by name.
   */
  ghost predicate IsBound(g: CallGraph, name: string, r: (nat, seq<string>)) {
    && IsChainFrom(g, name, r.1) && Resolved(g, r.1) && FrameSum(g, r.1) == r.0
    && forall q :: IsChainFrom(g, name, q) && Resolved(g, q) ==> !Less(r, (FrameSum(g, q), q))
  }

  /** In particular no other chain has a larger frame sum, and the result is unique. */
  lemma BoundIsLargest(g: CallGraph, name: string, r: (nat, seq<string>), q: seq<string>)
    requires IsBound(g, name, r) && IsChainFrom(g, name, q) && Resolved(g, q)
    ensures FrameSum(g, q) <= r.0
  {
    assert !Less(r, (FrameSum(g, q), q));
  }

  lemma BoundIsUnique(g: CallGraph, name: string, r: (nat, seq<string>), r': (nat, seq<string>))
    requires IsBound(g, name, r) && IsBound(g, name, r')
    ensures r == r'
  {
    PathsTotal(r.1, r'.1);
    assert !Less(r, (FrameSum(g, r'.1), r'.1)) && !Less(r', (FrameSum(g, r.1), r.1));
  }

  // ----- well-founded functions -------------------------------------------------------

  /** Every call chain from name stays in the image and is at most h calls long. */
  ghost predicate Grounded(g: CallGraph, name: string, h: nat)
    decreases h
  {
    name in g.edges && forall x :: x in g.edges[name] ==> h > 0 && Grounded(g, x, h - 1)
  }

  ghost predicate IsGrounded(g: CallGraph, name: string) {
    exists h: nat :: Grounded(g, name, h)
  }

  lemma {:induction false} GroundedMonotone(g: CallGraph, name: string, h: nat, k: nat)
    requires h <= k && Grounded(g, name, h)
    ensures Grounded(g, name, k)
    decreases h
  {
    forall x | x in g.edges[name]
      ensures k > 0 && Grounded(g, x, k - 1)
    {
      GroundedMonotone(g, x, h - 1, k - 1);
    }
  }

  lemma {:induction false} GroundedAlong(g: CallGraph, name: string, h: nat, p: seq<string>, i: nat)
    requires Grounded(g, name, h) && IsChainFrom(g, name, p) && i < |p|
    ensures i <= h && Grounded(g, p[i], h - i)
  {
    if i > 0 {
      GroundedAlong(g, name, h, p, i - 1);
      assert p[i] in g.edges[p[i - 1]];
    }
  }

  lemma {:induction false} NoCycle(g: CallGraph, x: string, h: nat, cycle: seq<string>)
    requires IsChainFrom(g, x, cycle) && |cycle| > 1 && cycle[|cycle| - 1] == x
    ensures !Grounded(g, x, h)
  {
    if Grounded(g, x, h) {
      GroundedAlong(g, x, h, cycle, |cycle| - 1);
      NoCycle(g, x, h - (|cycle| - 1), cycle);
    }
  }

  /** A function is grounded only if no defect can be reached from it. */
  lemma GroundedHasNoDefect(g: CallGraph, name: string, p: seq<string>)
    requires IsGrounded(g, name)
    ensures !IsDefect(g, name, p)
  {
    var h: nat :| Grounded(g, name, h);
    if IsChainFrom(g, name, p) {
      forall i | 0 <= i < |p|
        ensures p[i] in g.frames
      {
        GroundedAlong(g, name, h, p, i);
      }
      forall i, j | 0 <= i < j < |p|
        ensures p[i] != p[j]
      {
        GroundedAlong(g, name, h, p, i);
        if p[i] == p[j] {
          NoCycle(g, p[i], h - i, p[i..j + 1]);
        }
      }
    }
  }

  lemma {:induction false} CommonHeight(g: CallGraph, names: set<string>) returns (h: nat)
    requires forall x :: x in names ==> IsGrounded(g, x)
    ensures forall x :: x in names ==> Grounded(g, x, h)
  {
    if names == {} {
      h := 0;
    } else {
      var x :| x in names;
      var k: nat :| Grounded(g, x, k);
      var m := CommonHeight(g, names - {x});
      h := if k < m then m else k;
      forall y | y in names
        ensures Grounded(g, y, h)
      {
        if y == x {
          GroundedMonotone(g, x, k, h);
        } else {
          GroundedMonotone(g, y, m, h);
        }
      }
    }
  }

  lemma GroundedParent(g: CallGraph, name: string)
    requires name in g.edges && forall x :: x in g.edges[name] ==> IsGrounded(g, x)
    ensures IsGrounded(g, name)
  {
    var h := CommonHeight(g, g.edges[name]);
    assert Grounded(g, name, h + 1);
  }

  // ----- the recursion ---------------------------------------------------------------------

  /** What is known of the best child among those already asked. */
  ghost predicate IsBestOf(g: CallGraph, done: set<string>, best: (nat, seq<string>)) {
    && (done == {} ==> best == (0, []))
    && (done != {} ==> exists x :: x in done && IsBound(g, x, best))
    && (forall x, q :: x in done && IsChainFrom(g, x, q) && Resolved(g, q) ==> !Less(best, (FrameSum(g, q), q)))
  }

  lemma BetterOf(g: CallGraph, done: set<string>, best: (nat, seq<string>), x: string, r: (nat, seq<string>))
    requires IsBestOf(g, done, best) && IsBound(g, x, r)
    ensures done == {} || Less(best, r) ==> IsBestOf(g, done + {x}, r)
    ensures done != {} && !Less(best, r) ==> IsBestOf(g, done + {x}, best)
  {
    assert x in done + {x};
    forall y, q | y in done + {x} && IsChainFrom(g, y, q) && Resolved(g, q)
      ensures done == {} || Less(best, r) ==> !Less(r, (FrameSum(g, q), q))
      ensures done != {} && !Less(best, r) ==> !Less(best, (FrameSum(g, q), q))
    {
      LessIsWeakOrder(best, r, (FrameSum(g, q), q));
      LessIsWeakOrder(r, best, (FrameSum(g, q), q));
    }
    if done != {} && !Less(best, r) {
      var y :| y in done && IsBound(g, y, best);
      assert y in done + {x};
    }
  }

  lemma ParentBound(g: CallGraph, name: string, best: (nat, seq<string>))
    requires name in g.edges && IsBestOf(g, g.edges[name], best)
    ensures IsBound(g, name, (g.frames[name] + best.0, [name] + best.1))
  {
    var path := [name] + best.1;
    if g.edges[name] != {} {
      var x :| x in g.edges[name] && IsBound(g, x, best);
      ChainCons(g, name, best.1);
    } else {
      assert path[1..] == [];
    }
    assert path[1..] == best.1;
    forall q | IsChainFrom(g, name, q) && Resolved(g, q)
      ensures !Less((g.frames[name] + best.0, path), (FrameSum(g, q), q))
    {
      var tail := q[1..];
      assert q == [name] + tail;
      if |q| > 1 {
        ChainTail(g, q);
        assert q[1] in g.edges[name] && IsChainFrom(g, q[1], tail);
        LessCons(best, (FrameSum(g, tail), tail), g.frames[name], name);
      } else {
        LessCons(best, (0, tail), g.frames[name], name);
      }
    }
  }

  lemma ChainCons(g: CallGraph, name: string, p: seq<string>)
    requires name in g.edges && IsChain(g, p) && p[0] in g.edges[name]
    ensures IsChainFrom(g, name, [name] + p)
    ensures Resolved(g, p) ==> Resolved(g, [name] + p)
  {
    var q := [name] + p;
    forall i | 0 <= i < |q| - 1
      ensures q[i] in g.edges && q[i + 1] in g.edges[q[i]]
    {
      if i > 0 {
        assert q[i] == p[i - 1] && q[i + 1] == p[i];
      }
    }
  }

  lemma ChainTail(g: CallGraph, q: seq<string>)
    requires IsChain(g, q) && |q| > 1
    ensures IsChainFrom(g, q[1], q[1..])
    ensures Resolved(g, q) ==> Resolved(g, q[1..])
  {
    var t := q[1..];
    assert forall i :: 0 <= i < |t| ==> t[i] == q[i + 1];
  }

  lemma DefectCons(g: CallGraph, name: string, x: string, p: seq<string>)
    requires name in g.edges && x in g.edges[name] && IsDefect(g, x, p)
    ensures IsDefect(g, name, [name] + p)
  {
    ChainCons(g, name, p);
    var q := [name] + p;
    if Repeats(p) {
      var i, j :| 0 <= i < j < |p| && p[i] == p[j];
      assert q[i + 1] == q[j + 1];
    } else {
      var i :| 0 <= i < |p| && p[i] !in g.frames;
      assert q[i + 1] !in g.frames;
    }
  }

  ghost predicate HasDefect(g: CallGraph, name: string) {
    exists p :: IsDefect(g, name, p)
  }

  /** Two real chains from the entry points need more than the stack has. */
  ghost predicate Exceeds(g: CallGraph, main: string, trap: string) {
    exists p, q :: IsChainFrom(g, main, p) && IsChainFrom(g, trap, q) && Resolved(g, p) && Resolved(g, q) &&
                   FrameSum(g, p) + FrameSum(g, q) > 4096
  }

  ghost function Elements(p: seq<string>): set<string> {
    set x | x in p
  }

  class StackChecker {
    const g: CallGraph
    var memo: map<string, (nat, seq<string>)>

    constructor (g: CallGraph)
      ensures this.g == g && memo == map[] && Valid()
    {
      this.g := g;
      memo := map[];
    }

    /** Only finished functions are remembered, each with its bound. */
    ghost predicate Valid()
      reads this
    {
      forall n :: n in memo ==> IsGrounded(g, n) && IsBound(g, n, memo[n])
    }

    /**
     bound: terminates on every finite graph; raises exactly when a cycle or an unresolved callee can be
     reached; otherwise returns a real chain whose frame sum is its value and which no chain exceeds.
     */
    method Bound(name: string, visiting: seq<string>) returns (r: Result<(nat, seq<string>)>)
      requires Valid() && IsChain(g, visiting + [name]) && Resolved(g, visiting)
      modifies this`memo
      ensures Valid()
      ensures r.Ok? <==> !HasDefect(g, name)
      ensures r.Ok? ==> IsGrounded(g, name) && IsBound(g, name, r.value)
      ensures r.Err? ==> r.error == ValueError
      decreases g.frames.Keys - Elements(visiting)
    {
      if name in visiting {
        var i :| 0 <= i < |visiting| && visiting[i] == name;
        CycleDefect(visiting, i, name);
        return Err(ValueError);
      }
      if name !in g.frames {
        assert IsDefect(g, name, [name]);
        return Err(ValueError);
      }
      if name in memo {
        NoDefect(name);
        return Ok(memo[name]);
      }
      var best: (nat, seq<string>) := (0, []);
      var rest := g.edges[name];
      var first := true;
      ghost var done: set<string> := {};
      while rest != {}
        invariant Valid() && done + rest == g.edges[name] && done !! rest
        invariant IsBestOf(g, done, best) && (first <==> done == {})
        invariant forall x :: x in done ==> IsGrounded(g, x)
        decreases rest
      {
        var x :| x in rest;
        Deeper(visiting, name, x);
        var child := Bound(x, visiting + [name]);
        if child.Err? {
          ghost var p :| IsDefect(g, x, p);
          DefectCons(g, name, x, p);
          return Err(ValueError);
        }
        BetterOf(g, done, best, x, child.value);
        if first || Less(best, child.value) {
          best := child.value;
        }
        first := false;
        done, rest := done + {x}, rest - {x};
      }
      assert done == g.edges[name];
      ParentBound(g, name, best);
      GroundedParent(g, name);
      NoDefect(name);
      var result := (g.frames[name] + best.0, [name] + best.1);
      memo := memo[name := result];
      return Ok(result);
    }

    lemma NoDefect(name: string)
      requires IsGrounded(g, name)
      ensures !HasDefect(g, name)
    {
      forall p
        ensures !IsDefect(g, name, p)
      {
        GroundedHasNoDefect(g, name, p);
      }
    }

    lemma CycleDefect(visiting: seq<string>, i: nat, name: string)
      requires IsChain(g, visiting + [name]) && i < |visiting| && visiting[i] == name
      ensures HasDefect(g, name)
    {
      var whole := visiting + [name];
      var p := whole[i..];
      forall j | 0 <= j < |p| - 1
        ensures p[j] in g.edges && p[j + 1] in g.edges[p[j]]
      {
        assert p[j] == whole[i + j] && p[j + 1] == whole[i + j + 1];
      }
      assert p[0] == p[|p| - 1];
      assert IsDefect(g, name, p);
    }

    lemma Deeper(visiting: seq<string>, name: string, x: string)
      requires IsChain(g, visiting + [name]) && Resolved(g, visiting)
      requires name in g.frames && name !in visiting && x in g.edges[name]
      ensures IsChain(g, visiting + [name] + [x]) && Resolved(g, visiting + [name])
      ensures g.frames.Keys - Elements(visiting + [name]) < g.frames.Keys - Elements(visiting)
    {
      var p := visiting + [name];
      forall i | 0 <= i < |p + [x]| - 1
        ensures (p + [x])[i] in g.edges && (p + [x])[i + 1] in g.edges[(p + [x])[i]]
      {
        if i < |p| - 1 {
          assert (p + [x])[i] == p[i] && (p + [x])[i + 1] == p[i + 1];
        }
      }
      assert name in p;
      assert name in g.frames.Keys - Elements(visiting) && name !in g.frames.Keys - Elements(p);
      assert forall y :: y in visiting ==> y in p;
    }

    /** The two entry points share one memo; the reviewed total covers every pair of chains from them. */
    method Check(main: string, trap: string) returns (r: Result<(nat, seq<string>, nat, seq<string>)>)
      requires Valid()
      modifies this`memo
      ensures Valid()
      ensures r.Ok? ==> !HasDefect(g, main) && !HasDefect(g, trap)
      ensures r.Ok? ==> IsBound(g, main, (r.value.0, r.value.1)) && IsBound(g, trap, (r.value.2, r.value.3))
      ensures r.Ok? ==> forall p, q | IsChainFrom(g, main, p) && IsChainFrom(g, trap, q) ::
                Resolved(g, p) && Resolved(g, q) && FrameSum(g, p) + FrameSum(g, q) <= 4096
      ensures r.Err? ==> HasDefect(g, main) || HasDefect(g, trap) || Exceeds(g, main, trap)
    {
      var normal := Bound(main, []);
      if normal.Err? {
        return Err(ValueError);
      }
      var trapped := Bound(trap, []);
      if trapped.Err? {
        return Err(ValueError);
      }
      var total := normal.value.0 + trapped.value.0;
      if total > 4096 {
        assert IsChainFrom(g, main, normal.value.1) && IsChainFrom(g, trap, trapped.value.1);
        return Err(ValueError);
      }
      forall p, q | IsChainFrom(g, main, p) && IsChainFrom(g, trap, q)
        ensures Resolved(g, p) && Resolved(g, q) && FrameSum(g, p) + FrameSum(g, q) <= 4096
      {
        assert !IsDefect(g, main, p) && !IsDefect(g, trap, q);
        BoundIsLargest(g, main, normal.value, p);
        BoundIsLargest(g, trap, trapped.value, q);
      }
      return Ok((normal.value.0, normal.value.1, trapped.value.0, trapped.value.1));
    }
  }
}
