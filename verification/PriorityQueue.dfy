/**
 * The watch queue, a Redis sorted set shared by any number of consumers:
 * data_access/classes/priority_queue.py.
 *
 * A member is the pickled order, its score the negated time it was added, so the set is a map from
 * payload to time. Reading the first member and removing it are two separate Redis commands.
 */
module PriorityQueues {
  import opened Wrappers

  type Payload = string

  type Watched = map<Payload, nat>

  predicate Oldest(q: Watched, p: Payload) { p in q && forall r | r in q :: q[p] <= q[r] }

  lemma OldestOfFewer(q: Watched, gone: set<Payload>, p: Payload)
    requires Oldest(q, p)
    ensures p in q - gone ==> Oldest(q - gone, p)
  {
  }

  // ------------------------------------------------------------------- the steps

  /** Where a consumer is inside `get_oldest_order`. */
  datatype Consumer = Outside | AtRead | AtRemove(payload: Payload)

  /** `added`, `overwritten` and `delivered` are history. */
  datatype State = State(watched: Watched, clock: nat, consumers: seq<Consumer>,
                         added: multiset<Payload>, overwritten: multiset<Payload>, delivered: multiset<Payload>)

  datatype Step =
    | Add(payload: Payload, now: nat)
    | Call(consumer: nat)
    | Read(consumer: nat, first: Payload)
    | ReadNothing(consumer: nat)
    | Remove(consumer: nat)

  function Initial(consumers: nat): State {
    State(map[], 0, seq(consumers, i => Outside), multiset{}, multiset{}, multiset{})
  }

  predicate IsAt(s: State, c: nat, at: Consumer) { c < |s.consumers| && s.consumers[c] == at }

  predicate Enabled(s: State, step: Step) {
    match step
    case Add(p, now) => s.clock <= now
    case Call(c) => IsAt(s, c, Outside)
    case Read(c, p) => IsAt(s, c, AtRead) && Oldest(s.watched, p)
    case ReadNothing(c) => IsAt(s, c, AtRead) && s.watched == map[]
    case Remove(c) => c < |s.consumers| && s.consumers[c].AtRemove?
  }

  function After(s: State, step: Step): State
    requires Enabled(s, step)
  {
    match step
    case Add(p, now) =>
      s.(watched := s.watched[p := now], clock := now, added := s.added + multiset{p},
         overwritten := if p in s.watched then s.overwritten + multiset{p} else s.overwritten)
    case Call(c) => s.(consumers := s.consumers[c := AtRead])
    case Read(c, p) => s.(consumers := s.consumers[c := AtRemove(p)])
    case ReadNothing(c) => s.(consumers := s.consumers[c := Outside])
    case Remove(c) =>
      var p := s.consumers[c].payload;
      if p in s.watched then
        s.(watched := s.watched - {p}, delivered := s.delivered + multiset{p}, consumers := s.consumers[c := Outside])
      else
        // somebody else removed it first: try again
        s.(consumers := s.consumers[c := AtRead])
  }

  ghost predicate IsRun(states: seq<State>, steps: seq<Step>) {
    && |states| == |steps| + 1
    && forall i | 0 <= i < |steps| :: Enabled(states[i], steps[i]) && states[i + 1] == After(states[i], steps[i])
  }

  ghost predicate StartsEmpty(states: seq<State>) { states != [] && exists n: nat :: states[0] == Initial(n) }

  // ---------------------------------------------------------------- conservation

  ghost predicate Inv(s: State) {
    && (forall p | p in s.watched :: s.watched[p] <= s.clock)
    && s.added == s.delivered + s.overwritten + multiset(s.watched.Keys)
  }

  lemma StepKeepsInv(s: State, step: Step)
    requires Inv(s) && Enabled(s, step)
    ensures Inv(After(s, step))
  {
  }

  /**
   * In every run, everything added is delivered, still watched, or was overwritten by adding an equal
   * payload while it was watched; so no payload is delivered more often than it was added.
   */
  lemma {:induction false} NothingIsLostOrDeliveredTwice(states: seq<State>, steps: seq<Step>)
    requires IsRun(states, steps) && StartsEmpty(states)
    ensures forall i | 0 <= i < |states| :: Inv(states[i])
    decreases |steps|
  {
    if |steps| > 0 {
      var n := |steps| - 1;
      assert IsRun(states[..n + 1], steps[..n]);
      NothingIsLostOrDeliveredTwice(states[..n + 1], steps[..n]);
      assert states[n] == states[..n + 1][n];
      StepKeepsInv(states[n], steps[n]);
      forall i | 0 <= i < |states| ensures Inv(states[i]) {
        if i <= n {
          assert states[i] == states[..n + 1][i];
        }
      }
    }
  }

  // ------------------------------------------------------------------------ order

  /** From right after step i to step j, consumer c holds the payload it read at step i. */
  ghost predicate Holds(states: seq<State>, steps: seq<Step>, i: nat, j: nat, c: nat, p: Payload)
  {
    && IsRun(states, steps) && StartsEmpty(states) && i < j < |steps|
    && steps[i] == Read(c, p) && steps[j] == Remove(c)
    && forall k | i < k < j :: steps[k] != Remove(c)
  }

  ghost predicate NotOlderThan(s: State, t: nat) {
    t <= s.clock && forall q | q in s.watched :: t <= s.watched[q]
  }

  lemma StaysNotOlder(s: State, step: Step, t: nat)
    requires NotOlderThan(s, t) && Enabled(s, step)
    ensures NotOlderThan(After(s, step), t)
  {
  }

  /** While it is held, nothing older comes in, and its own time only changes by adding it again. */
  lemma {:induction false} WhileHeld(states: seq<State>, steps: seq<Step>, i: nat, k: nat, c: nat, p: Payload)
    requires IsRun(states, steps) && StartsEmpty(states) && i < k < |states| && steps[i] == Read(c, p)
    requires forall m | i < m < k :: !(steps[m].Add? && steps[m].payload == p)
    ensures p in states[i].watched && NotOlderThan(states[k], states[i].watched[p])
    ensures p in states[k].watched ==> states[k].watched[p] == states[i].watched[p]
    decreases k
  {
    assert Enabled(states[i], steps[i]);
    if k == i + 1 {
      NothingIsLostOrDeliveredTwice(states, steps);
    } else {
      WhileHeld(states, steps, i, k - 1, c, p);
      StaysNotOlder(states[k - 1], steps[k - 1], states[i].watched[p]);
      assert states[k] == After(states[k - 1], steps[k - 1]);
    }
  }

  lemma {:induction false} StillHeld(states: seq<State>, steps: seq<Step>, i: nat, k: nat, j: nat, c: nat, p: Payload)
    requires Holds(states, steps, i, j, c, p) && i < k <= j
    ensures IsAt(states[k], c, AtRemove(p))
    decreases k
  {
    assert Enabled(states[k - 1], steps[k - 1]) && states[k] == After(states[k - 1], steps[k - 1]);
    if k > i + 1 {
      StillHeld(states, steps, i, k - 1, j, c, p);
    }
  }

  /** A delivered payload is the oldest at the moment it is removed, unless it was added again since it was read. */
  lemma DeliveredIsTheOldest(states: seq<State>, steps: seq<Step>, i: nat, j: nat, c: nat, p: Payload)
    requires Holds(states, steps, i, j, c, p)
    requires forall m | i < m < j :: !(steps[m].Add? && steps[m].payload == p)
    ensures IsAt(states[j], c, AtRemove(p))
    ensures p in states[j].watched ==>
      Oldest(states[j].watched, p) && states[j + 1].delivered == states[j].delivered + multiset{p}
  {
    StillHeld(states, steps, i, j, j, c, p);
    WhileHeld(states, steps, i, j, c, p);
    assert Enabled(states[j], steps[j]) && states[j + 1] == After(states[j], steps[j]);
  }

  /** `q` was added between the steps m and k. */
  predicate AddedSince(steps: seq<Step>, m: nat, k: nat, q: Payload)
    requires k <= |steps|
  {
    exists x | m < x < k :: steps[x].Add? && steps[x].payload == q
  }

  /** Since step m added `p` at a time of its own, a watched payload is newer exactly when it was added later. */
  ghost predicate SplitByAge(s: State, steps: seq<Step>, m: nat, k: nat, p: Payload, now: nat)
    requires k <= |steps|
  {
    && now <= s.clock && (p in s.watched ==> s.watched[p] == now)
    && forall q | q in s.watched && q != p :: s.watched[q] >= now <==> AddedSince(steps, m, k, q)
  }

  lemma StepSplitsByAge(s: State, steps: seq<Step>, m: nat, k: nat, p: Payload, now: nat)
    requires m < k < |steps| && Enabled(s, steps[k]) && SplitByAge(s, steps, m, k, p, now)
    requires !(steps[k].Add? && steps[k].payload == p)
    ensures SplitByAge(After(s, steps[k]), steps, m, k + 1, p, now)
  {
    var s' := After(s, steps[k]);
    forall q | q in s'.watched && q != p ensures s'.watched[q] >= now <==> AddedSince(steps, m, k + 1, q) {
      if steps[k].Add? && steps[k].payload == q {
        assert AddedSince(steps, m, k + 1, q);
      } else {
        assert AddedSince(steps, m, k + 1, q) <==> AddedSince(steps, m, k, q);
      }
    }
  }

  lemma {:induction false} RunSplitsByAge(states: seq<State>, steps: seq<Step>, m: nat, k: nat, p: Payload)
    requires IsRun(states, steps) && StartsEmpty(states) && m < k < |states| && steps[m].Add? && steps[m].payload == p
    requires states[m].clock < steps[m].now && forall x | m < x < k :: !(steps[x].Add? && steps[x].payload == p)
    ensures k <= |steps| ==> SplitByAge(states[k], steps, m, k, p, steps[m].now)
    decreases k
  {
    if k == m + 1 {
      NothingIsLostOrDeliveredTwice(states, steps);
      assert Inv(states[m]) && Enabled(states[m], steps[m]) && states[k] == After(states[m], steps[m]);
    } else {
      RunSplitsByAge(states, steps, m, k - 1, p);
      assert Enabled(states[k - 1], steps[k - 1]) && states[k] == After(states[k - 1], steps[k - 1]);
      StepSplitsByAge(states[k - 1], steps, m, k - 1, p, steps[m].now);
    }
  }

  /** And if it was added again, last at step m and at a time of its own, it is the oldest when removed
      exactly when everything else that is watched by then was added even later. */
  lemma ReAddedIsOldestIff(states: seq<State>, steps: seq<Step>, i: nat, m: nat, j: nat, c: nat, p: Payload)
    requires Holds(states, steps, i, j, c, p) && i < m < j && steps[m].Add? && steps[m].payload == p
    requires states[m].clock < steps[m].now && forall x | m < x < j :: !(steps[x].Add? && steps[x].payload == p)
    requires p in states[j].watched
    ensures Oldest(states[j].watched, p) <==>
      forall q | q in states[j].watched && q != p :: AddedSince(steps, m, j, q)
  {
    RunSplitsByAge(states, steps, m, j, p);
  }

  predicate Takes(s: State, step: Step, p: Payload) {
    step.Remove? && IsAt(s, step.consumer, AtRemove(p)) && p in s.watched
  }

  /** A removal only comes too late because another consumer was delivered that payload meanwhile. */
  lemma RetriesMeanDeliveries(states: seq<State>, steps: seq<Step>, i: nat, j: nat, c: nat, p: Payload)
    requires Holds(states, steps, i, j, c, p)
    ensures p !in states[j].watched ==> exists k | i < k < j :: Takes(states[k], steps[k], p) && steps[k].consumer != c
  {
    if p !in states[j].watched {
      assert Enabled(states[i], steps[i]) && states[i + 1] == After(states[i], steps[i]);
      var k := LastWatched(states, steps, i + 1, j, p);
      assert Enabled(states[k], steps[k]) && states[k + 1] == After(states[k], steps[k]);
      assert Takes(states[k], steps[k], p);
      assert steps[k] != Remove(c);
    }
  }

  lemma {:induction false} LastWatched(states: seq<State>, steps: seq<Step>, a: nat, b: nat,
      p: Payload)
    returns (k: nat)
    requires IsRun(states, steps) && a <= b < |states| && p in states[a].watched && p !in states[b].watched
    ensures a <= k < b && p in states[k].watched && p !in states[k + 1].watched
    decreases b - a
  {
    if p in states[a + 1].watched {
      k := LastWatched(states, steps, a + 1, b, p);
    } else {
      k := a;
    }
  }

  /** Two payloads are added in the same millisecond and both consumers read the first one. */
  lemma BothReadTheSame() returns (states: seq<State>, steps: seq<Step>)
    ensures |steps| == 6 && IsRun(states, steps) && StartsEmpty(states) && steps[4] == Read(0, "a")
      && steps[5] != Remove(0)
    ensures states[6].watched == map["a" := 1, "b" := 1] && states[6].clock == 1
    ensures states[6].consumers == [AtRemove("a"), AtRemove("a")]
  {
    var s0 := Initial(2);
    assert s0.consumers == [Outside, Outside];
    var s1 := After(s0, Add("a", 1));
    var s2 := After(s1, Add("b", 1));
    assert s2.watched == map["a" := 1, "b" := 1];
    assert Oldest(s2.watched, "a");
    var s3 := After(s2, Call(0));
    var s4 := After(s3, Call(1));
    var s5 := After(s4, Read(0, "a"));
    var s6 := After(s5, Read(1, "a"));
    states := [s0, s1, s2, s3, s4, s5, s6];
    steps := [Add("a", 1), Add("b", 1), Call(0), Call(1), Read(0, "a"), Read(1, "a")];
  }

  lemma OneMore(states: seq<State>, steps: seq<Step>, step: Step) returns (states': seq<State>, steps': seq<Step>)
    requires IsRun(states, steps) && StartsEmpty(states) && Enabled(states[|steps|], step)
    ensures states' == states + [After(states[|steps|], step)] && steps' == steps + [step]
    ensures IsRun(states', steps') && StartsEmpty(states')
  {
    states' := states + [After(states[|steps|], step)];
    steps' := steps + [step];
    assert states'[0] == states[0];
  }

  /** Added again between its read and its removal, the newest order is delivered before an older one. */
  lemma ReAddedOrdersOvertake()
    ensures exists states: seq<State>, steps: seq<Step>, i: nat, j: nat ::
      Holds(states, steps, i, j, 0, "a") && "a" in states[j].watched && !Oldest(states[j].watched, "a")
  {
    var states, steps := BothReadTheSame();
    states, steps := OneMore(states, steps, Remove(1));
    states, steps := OneMore(states, steps, Add("a", 3));
    var last := states[8].watched;
    assert last["b"] < last["a"];
    states, steps := OneMore(states, steps, Remove(0));
    assert Holds(states, steps, 4, 8, 0, "a");
    assert !Oldest(states[8].watched, "a");
  }

  // ------------------------------------------------------------------- the answers

  /** This step takes an order out for consumer `c`, or tells it that none is watched. */
  predicate Answers(s: State, step: Step, c: nat) {
    || (step == ReadNothing(c) && s.watched == map[])
    || (step == Remove(c) && c < |s.consumers| && s.consumers[c].AtRemove? && s.consumers[c].payload in s.watched)
  }

  lemma AnAnswerEndsTheCall(s: State, step: Step, c: nat)
    requires Enabled(s, step) && c < |s.consumers| && s.consumers[c] != Outside
    ensures IsAt(After(s, step), c, Outside) <==> Answers(s, step, c)
  {
  }

  /** A consumer that has called comes back only with an order, or when nothing was watched: a removal
      that comes too late is tried again. Either ends the call. */
  lemma {:induction false} CallsEndWithAnAnswer(states: seq<State>, steps: seq<Step>, i: nat, j: nat, c: nat)
    returns (k: nat)
    requires IsRun(states, steps) && i < j < |states| && c < |states[i].consumers|
    requires states[i].consumers[c] != Outside && IsAt(states[j], c, Outside)
    ensures i <= k < j && Answers(states[k], steps[k], c) && IsAt(states[k + 1], c, Outside)
    decreases j
  {
    assert Enabled(states[j - 1], steps[j - 1]) && states[j] == After(states[j - 1], steps[j - 1]);
    if IsAt(states[j - 1], c, Outside) {
      k := CallsEndWithAnAnswer(states, steps, i, j - 1, c);
    } else {
      k := j - 1;
      AnAnswerEndsTheCall(states[k], steps[k], c);
    }
  }

  // ------------------------------------------------------------------- the class

  /** One consumer's view; `rivals` are the payloads others remove between its reads and removals. */
  class PriorityQueue {
    var watched: Watched

    constructor ()
      ensures watched == map[]
    {
      watched := map[];
    }

    method AddOrderToWatchQueue(order: Payload, now: nat)
      modifies this
      ensures watched == old(watched)[order := now]
    {
      watched := watched[order := now];
    }

    method First() returns (p: Option<Payload>)
      ensures p == None <==> watched == map[]
      ensures p.Some? ==> Oldest(watched, p.value)
    {
      if watched == map[] {
        return None;
      }
      var left := watched.Keys;
      var first :| first in left;
      left := left - {first};
      while left != {}
        invariant left <= watched.Keys && first in watched && first !in left
        invariant forall r | r in watched && r !in left :: watched[first] <= watched[r]
        decreases |left|
      {
        var r :| r in left;
        if watched[r] < watched[first] {
          first := r;
        }
        left := left - {r};
      }
      p := Some(first);
    }

    method Remove(p: Payload) returns (removed: bool)
      modifies this
      ensures removed == (p in old(watched)) && watched == old(watched) - {p}
    {
      removed := p in watched;
      watched := watched - {p};
    }

    /** Retries as long as a rival was faster, and answers None only when nothing is left. */
    method GetOldestOrder(rivals: seq<set<Payload>>) returns (order: Option<Payload>, rounds: nat)
      modifies this
      ensures rounds <= |rivals|
      ensures var left := old(watched) - Union(rivals[..rounds]);
        if order.Some? then Oldest(left, order.value) && watched == left - {order.value}
        else left == map[] && watched == map[]
    {
      rounds := 0;
      ghost var all := watched;
      var item := First();
      while item.Some?
        invariant rounds <= |rivals| && watched == all - Union(rivals[..rounds])
        invariant item == None <==> watched == map[]
        invariant item.Some? ==> Oldest(watched, item.value)
        decreases |rivals| - rounds
      {
        var waited := rounds < |rivals|;
        if waited {
          UnionSnoc(rivals, rounds);
          OldestOfFewer(watched, rivals[rounds], item.value);
          watched := watched - rivals[rounds];
          rounds := rounds + 1;
        }
        ghost var left := watched;
        var removed := Remove(item.value);
        if removed {
          assert Oldest(left, item.value);
          assert left == old(watched) - Union(rivals[..rounds]);
          return item, rounds;
        }
        assert waited;
        item := First();
      }
      order := None;
    }
  }

  function Union(sets: seq<set<Payload>>): set<Payload> {
    if sets == [] then {} else Union(sets[..|sets| - 1]) + sets[|sets| - 1]
  }

  lemma UnionSnoc(sets: seq<set<Payload>>, n: nat)
    requires n < |sets|
    ensures Union(sets[..n + 1]) == Union(sets[..n]) + sets[n]
  {
    assert sets[..n + 1][..n] == sets[..n];
  }
}
