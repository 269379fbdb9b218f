/** common/chaos.go: the per-key fault-window state machine behind `MaybeError`. */
module Chaos {
  import opened Wrappers

  // MARK: specification of one key

  /** A set of fault positions that buildFailSet may draw for a window of 20 calls. */
  type Positions = f: set<nat> | 2 <= |f| <= 5 && (forall p | p in f :: 1 <= p <= 20) witness {1, 2}

  /** The state of one key; the mutex is what makes each call one atomic step. */
  datatype Window = Window(requests: nat, failAt: set<nat>, windowEnd: nat)

  const INIT := Window(0, {}, 0)

  /** The window is used up, or this is the first call. */
  predicate Opens(w: Window) {
    w.windowEnd == 0 || w.requests >= w.windowEnd
  }

  /** One call; `f` is what buildFailSet would draw, and counts only when the call
      opens a window. */
  function Advance(w: Window, f: Positions): Window {
    if Opens(w) then Window(1, f, 20)
    else w.(requests := w.requests + 1)
  }

  /** Whether the call that led to `w` reported an error. */
  predicate Failed(w: Window) {
    w.requests in w.failAt
  }

  // MARK: the implementation

  /** What the random source decides in one call: `r.Intn(4)` and `r.Perm(20)` of
      buildFailSet, and the draws that pick the status of an injected error. */
  datatype RawDraw = Draw(extra: nat, perm: seq<nat>, client: bool, clientPick: nat, serverPick: nat)

  predicate IsPermutation(perm: seq<nat>) {
    && |perm| == 20
    && (forall i | 0 <= i < |perm| :: perm[i] < 20)
    && (forall i, j | 0 <= i < j < |perm| :: perm[i] != perm[j])
  }

  type Draw = d: RawDraw | d.extra < 4 && IsPermutation(d.perm) && d.clientPick < 2 && d.serverPick < 3
    witness Draw(0, seq(20, i => i), true, 0, 0)

  /** The set holds the first `n` positions, plus one. */
  predicate FilledBy(filled: set<nat>, positions: seq<nat>, n: nat)
    requires n <= |positions|
  {
    |filled| == n && forall p | p in filled :: 1 <= p <= 20 && p - 1 in positions[..n]
  }

  lemma FilledByNext(filled: set<nat>, positions: seq<nat>, n: nat)
    requires n < |positions| && FilledBy(filled, positions, n)
    requires positions[n] < 20 && forall i | 0 <= i < n :: positions[i] != positions[n]
    ensures FilledBy(filled + {positions[n] + 1}, positions, n + 1)
  {
    assert forall q | q in positions[..n] :: q != positions[n];
    assert positions[..n + 1] == positions[..n] + [positions[n]];
  }

  /** Exactly `2 + extra` distinct positions out of 1..20: the first drawn ones, plus one. */
  method BuildFailSet(extra: nat, perm: seq<nat>) returns (failAt: Positions)
    requires extra < 4 && IsPermutation(perm)
    ensures |failAt| == 2 + extra
    ensures forall p :: p in failAt ==> p - 1 in perm[..2 + extra]
  {
    var failCount := 2 + extra;
    var positions := perm[..failCount];
    var filled: set<nat> := {};
    for i := 0 to failCount
      invariant FilledBy(filled, positions, i)
    {
      FilledByNext(filled, positions, i);
      filled := filled + {positions[i] + 1};
    }
    assert positions[..failCount] == positions;
    failAt := filled;
  }

  /** The positions that the draw stands for. */
  predicate Drawn(d: Draw, f: Positions) {
    |f| == 2 + d.extra && forall p | p in f :: p - 1 in d.perm[..2 + d.extra]
  }

  class ChaosState {
    var requests: nat
    var failAt: set<nat>
    var windowEnd: nat

    constructor ()
      ensures Value() == INIT
    {
      requests, failAt, windowEnd := 0, {}, 0;
    }

    function Value(): Window
      reads this
    {
      Window(requests, failAt, windowEnd)
    }

    /** The part of MaybeError that runs under the key's mutex. */
    method Next(d: Draw) returns (err: Option<nat>, ghost offered: Positions)
      modifies this
      ensures Value() == Advance(old(Value()), offered)
      ensures Opens(old(Value())) ==> Drawn(d, offered)
      ensures err.Some? <==> Failed(Value())
      ensures err.Some? ==> err.value == if d.client then [400, 422][d.clientPick] else [500, 502, 503][d.serverPick]
    {
      if windowEnd == 0 || requests >= windowEnd {
        requests := 0;
        windowEnd := 20;
        var drawn := BuildFailSet(d.extra, d.perm);
        failAt, offered := drawn, drawn;
      } else {
        offered := {1, 2}; // no set is drawn; Advance ignores the offer
      }
      requests := requests + 1;
      if requests !in failAt {
        return None, offered;
      }
      var clientStatus := [400, 422, 404];
      var serverStatus := [500, 502, 503, 504];
      if d.client {
        return Some(clientStatus[d.clientPick]), offered;
      }
      return Some(serverStatus[d.serverPick]), offered;
    }
  }

  /** The process-wide table of keys. */
  class ChaosStates {
    var states: map<string, ChaosState>

    constructor ()
      ensures Valid() && Value() == map[]
    {
      states := map[];
    }

    /** No two keys share a state object. */
    ghost predicate Valid()
      reads this
    {
      forall j, k | j in states && k in states && j != k :: states[j] != states[k]
    }

    ghost function Value(): States
      reads this, states.Values
    {
      map k | k in states :: states[k].Value()
    }

    /** MaybeError touches the state of its own key only. */
    method MaybeError(key: string, d: Draw) returns (err: Option<nat>, ghost offered: Positions)
      requires Valid()
      modifies this, states.Values
      ensures Valid() && fresh(states.Values - old(states.Values))
      ensures Value() == StepKey(old(Value()), key, offered)
      ensures Opens(StateOf(old(Value()), key)) ==> Drawn(d, offered)
      ensures err.Some? <==> Failed(Value()[key])
      ensures err.Some? ==> err.value == if d.client then [400, 422][d.clientPick] else [500, 502, 503][d.serverPick]
    {
      if key !in states {
        var created := new ChaosState();
        states := states[key := created];
      }
      err, offered := states[key].Next(d);
    }
  }

  // MARK: long runs on one key

  /** The state after one call for each element of `fs`, the position sets on offer. */
  function AfterCalls(fs: seq<Positions>): Window {
    if fs == [] then INIT else Advance(AfterCalls(fs[..|fs| - 1]), fs[|fs| - 1])
  }

  /** What the successive calls return: true for an error. */
  function Results(fs: seq<Positions>): (r: seq<bool>)
    ensures |r| == |fs|
  {
    if fs == [] then [] else Results(fs[..|fs| - 1]) + [Failed(AfterCalls(fs))]
  }

  lemma {:induction false} AfterShape(fs: seq<Positions>, w: nat, r: nat)
    requires 1 <= r <= 20 && |fs| == 20 * w + r
    ensures AfterCalls(fs) == Window(r, fs[20 * w], 20)
  {
    var before := fs[..|fs| - 1];
    if r > 1 {
      AfterShape(before, w, r - 1);
    } else if w > 0 {
      AfterShape(before, w - 1, 20);
    }
  }

  /** Call number 20w + r (counted from 0) fails exactly when position r + 1 is among
      the positions drawn when window w was opened. */
  lemma {:induction false} ResultAt(fs: seq<Positions>, w: nat, r: nat)
    requires r < 20 && 20 * w + r < |fs|
    ensures Results(fs)[20 * w + r] <==> r + 1 in fs[20 * w]
    decreases |fs|
  {
    var n := |fs|;
    if 20 * w + r == n - 1 {
      AfterShape(fs, w, r + 1);
    } else {
      ResultAt(fs[..n - 1], w, r);
    }
  }

  function Failures(r: seq<bool>): (n: nat)
    ensures n <= |r|
  {
    if r == [] then 0 else Failures(r[..|r| - 1]) + if r[|r| - 1] then 1 else 0
  }

  function UpTo(f: set<nat>, r: nat): set<nat> {
    set p | p in f && p <= r
  }

  /** Inside a window, the failures so far are the drawn positions passed so far. */
  lemma {:induction false} FailuresInWindow(whole: seq<Positions>, w: nat, part: seq<Positions>)
    requires |whole| == 20 * w && 1 <= |part| <= 20
    ensures Failures(Results(whole + part)) == Failures(Results(whole)) + |UpTo(part[0], |part|)|
  {
    var r := |part|;
    var fs := whole + part;
    LastCall(fs, w, r);
    UpToNext(part[0], r);
    assert fs[20 * w] == part[0];
    if r == 1 {
      assert fs[..|fs| - 1] == whole;
      assert UpTo(part[0], 0) == {};
    } else {
      assert fs[..|fs| - 1] == whole + part[..r - 1];
      FailuresInWindow(whole, w, part[..r - 1]);
    }
  }

  lemma LastCall(fs: seq<Positions>, w: nat, r: nat)
    requires 1 <= r <= 20 && |fs| == 20 * w + r
    ensures Failures(Results(fs)) == Failures(Results(fs[..|fs| - 1])) + if r in fs[20 * w] then 1 else 0
  {
    AfterShape(fs, w, r);
    assert Results(fs)[..|fs| - 1] == Results(fs[..|fs| - 1]);
  }

  lemma UpToNext(f: set<nat>, r: nat)
    requires r > 0 && 0 !in f
    ensures |UpTo(f, r)| == |UpTo(f, r - 1)| + if r in f then 1 else 0
  {
    assert UpTo(f, r) == if r in f then UpTo(f, r - 1) + {r} else UpTo(f, r - 1);
  }

  /** After N calls on one key the number of injected errors lies between
      2 * floor(N / 20) and 5 * ceil(N / 20). */
  lemma {:induction false} FailureBounds(fs: seq<Positions>)
    ensures 2 * (|fs| / 20) <= Failures(Results(fs)) <= 5 * ((|fs| + 19) / 20)
  {
    if fs != [] {
      var w := (|fs| - 1) / 20;
      var r := (|fs| - 1) % 20 + 1;
      assert |fs| == 20 * w + r;
      var whole := fs[..20 * w];
      FailureBounds(whole);
      assert |whole| / 20 == w == (|whole| + 19) / 20;
      LastWindow(fs, w, r);
      assert (|fs| + 19) / 20 == w + 1 && |fs| / 20 == if r == 20 then w + 1 else w;
    }
  }

  lemma {:induction false} LastWindow(fs: seq<Positions>, w: nat, r: nat)
    requires 1 <= r <= 20 && |fs| == 20 * w + r
    ensures var before := Failures(Results(fs[..20 * w]));
            && before <= Failures(Results(fs)) <= before + 5
            && (r == 20 ==> before + 2 <= Failures(Results(fs)))
  {
    var whole, part := fs[..20 * w], fs[20 * w..];
    assert whole + part == fs;
    FailuresInWindow(whole, w, part);
    var f: set<nat> := fs[20 * w];
    SubsetSize(UpTo(f, r), f);
    if r == 20 {
      assert UpTo(f, r) == f;
    }
  }

  lemma {:induction false} SubsetSize<T>(a: set<T>, b: set<T>)
    requires a <= b
    ensures |a| <= |b|
  {
    if a != {} {
      var x :| x in a;
      SubsetSize(a - {x}, b - {x});
    }
  }

  /** The positions lo..hi of a window. */
  function Interval(lo: nat, hi: nat): (s: set<nat>)
    requires lo <= hi + 1
    ensures |s| == hi + 1 - lo
    ensures forall p :: p in s <==> lo <= p <= hi
    decreases hi + 1 - lo
  {
    if lo == hi + 1 then {} else {lo} + Interval(lo + 1, hi)
  }

  /** Any 37 consecutive calls contain a failure, across window boundaries. */
  lemma {:induction false} FailureWithin37(fs: seq<Positions>, s: nat)
    requires s + 37 <= |fs|
    ensures exists i :: s <= i < s + 37 && Results(fs)[i]
  {
    var w, r := s / 20, s % 20;
    var next := if r < 2 then w else w + 1;
    var f: set<nat> := fs[20 * next];
    // Of window `next`, the span covers all positions but at most one.
    var skipped := if r < 2 then Interval(1, r) else Interval(18 + r, if r == 2 then 20 else 17 + r);
    var p :| p in f && p !in skipped by {
      if f <= skipped { SubsetSize(f, skipped); }
    }
    ResultAt(fs, next, p - 1);
    assert s <= 20 * next + (p - 1) < s + 37;
  }

  /** Any 11 consecutive calls contain a success, across window boundaries. */
  lemma {:induction false} SuccessWithin11(fs: seq<Positions>, s: nat)
    requires s + 11 <= |fs|
    ensures exists i :: s <= i < s + 11 && !Results(fs)[i]
  {
    var w, r := s / 20, s % 20;
    var next := if r < 15 then w else w + 1;
    var f: set<nat> := fs[20 * next];
    var covered := if r <= 9 then Interval(r + 1, r + 11)
                   else if r < 15 then Interval(r + 1, 20) else Interval(1, r - 9);
    var p :| p in covered && p !in f by {
      if covered <= f { SubsetSize(covered, f); }
    }
    ResultAt(fs, next, p - 1);
    assert s <= 20 * next + (p - 1) < s + 11;
  }

  /** 37 is best possible: 36 successes can follow each other. */
  lemma {:induction false} QuietSpanIsAttained()
    ensures exists fs: seq<Positions> :: |fs| == 40 && forall i :: 2 <= i < 38 ==> !Results(fs)[i]
  {
    var early: Positions, late: Positions := {1, 2}, {19, 20};
    var quiet: seq<Positions> := seq(40, (i: nat) => if i < 20 then early else late);
    forall i | 2 <= i < 38 ensures !Results(quiet)[i] {
      ResultAt(quiet, i / 20, i % 20);
    }
  }

  /** 11 is best possible: 10 failures can follow each other. */
  lemma {:induction false} NoisySpanIsAttained()
    ensures exists fs: seq<Positions> :: |fs| == 40 && forall i :: 15 <= i < 25 ==> Results(fs)[i]
  {
    var early: Positions, late: Positions := {1, 2, 3, 4, 5}, {16, 17, 18, 19, 20};
    var noisy: seq<Positions> := seq(40, (i: nat) => if i < 20 then late else early);
    forall i | 15 <= i < 25 ensures Results(noisy)[i] {
      ResultAt(noisy, i / 20, i % 20);
    }
  }

  // MARK: many keys

  type States = map<string, Window>

  function StateOf(m: States, key: string): Window {
    if key in m then m[key] else INIT
  }

  function StepKey(m: States, key: string, f: Positions): States {
    m[key := Advance(StateOf(m, key), f)]
  }

  datatype Call = Call(key: string, offered: Positions)

  function StatesAfter(calls: seq<Call>): States {
    if calls == [] then map[]
    else
      var last := calls[|calls| - 1];
      StepKey(StatesAfter(calls[..|calls| - 1]), last.key, last.offered)
  }

  /** The results seen by the callers that use `key`. */
  function ResultsFor(key: string, calls: seq<Call>): seq<bool> {
    if calls == [] then []
    else
      var before := ResultsFor(key, calls[..|calls| - 1]);
      if calls[|calls| - 1].key == key then before + [Failed(StateOf(StatesAfter(calls), key))] else before
  }

  function OfferedTo(key: string, calls: seq<Call>): seq<Positions> {
    if calls == [] then []
    else
      var before := OfferedTo(key, calls[..|calls| - 1]);
      if calls[|calls| - 1].key == key then before + [calls[|calls| - 1].offered] else before
  }

  /** Keys do not influence each other: in every interleaving a key sees what it
      would see alone with the same draws. */
  lemma {:induction false} KeysAreIndependent(key: string, calls: seq<Call>)
    ensures StateOf(StatesAfter(calls), key) == AfterCalls(OfferedTo(key, calls))
    ensures ResultsFor(key, calls) == Results(OfferedTo(key, calls))
  {
    if calls != [] {
      var before := calls[..|calls| - 1];
      KeysAreIndependent(key, before);
      if calls[|calls| - 1].key == key {
        var fs := OfferedTo(key, calls);
        assert fs[..|fs| - 1] == OfferedTo(key, before);
      }
    }
  }
}
