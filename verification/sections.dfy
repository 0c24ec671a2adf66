/**
 * The section machinery of DiscoveryProvider: recycling sections by type
 * when the section types are recomputed, the provider capacity as the sum
 * of section capacities, and passing results through the sections in
 * order, each receiving what the previous one left.
 */
module Sections {
  import opened Wrappers
  import opened JavaText

  /** A section: its type, an identity (to tell reuse from creation) and its capacity. */
  datatype Section = Section(sectionType: int, id: nat, capacity: int)

  /** Index of the LAST section of the given type, or -1: the scan has no early exit. */
  function LastOfType(sections: seq<Section>, t: int): (r: int)
    ensures -1 <= r < |sections|
    ensures r >= 0 ==> sections[r].sectionType == t
    ensures forall j :: r < j < |sections| ==> sections[j].sectionType != t
  {
    if |sections| == 0 then -1
    else if sections[|sections| - 1].sectionType == t then |sections| - 1
    else LastOfType(sections[..|sections| - 1], t)
  }

  function Remove<T>(s: seq<T>, i: nat): (r: seq<T>)
    requires i < |s|
    ensures |r| == |s| - 1
    ensures forall k :: 0 <= k < i ==> r[k] == s[k]
    ensures forall k :: i <= k < |r| ==> r[k] == s[k + 1]
  {
    s[..i] + s[i + 1..]
  }

  /** The outcome of recycling: the new sections, the unused old ones, the next fresh id. */
  datatype Recycled = Recycled(sections: seq<Section>, unused: seq<Section>, nextId: nat)

  /**
   * `invalidateSections` without the re-application: section i gets type
   * types[i], reusing the last remaining old section of that type, or a
   * newly created one (with a fresh id, counting up from `nextId`).
   */
  function Recycle(prev: seq<Section>, types: seq<int>, nextId: nat): (r: Recycled)
    ensures |r.sections| == |types|
    ensures forall i :: 0 <= i < |types| ==> r.sections[i].sectionType == types[i]
    ensures nextId <= r.nextId
    decreases |types|
  {
    if |types| == 0 then Recycled([], prev, nextId)
    else
      var j := LastOfType(prev, types[0]);
      if j >= 0 then
        var rest := Recycle(Remove(prev, j), types[1..], nextId);
        Recycled([prev[j]] + rest.sections, rest.unused, rest.nextId)
      else
        var rest := Recycle(prev, types[1..], nextId + 1);
        Recycled([Section(types[0], nextId, 0)] + rest.sections, rest.unused, rest.nextId)
  }

  /** A new section of a type is created only when no old section of that type is left. */
  lemma {:induction false} RecycleCreatesOnlyWhenNoneLeft(prev: seq<Section>, types: seq<int>, nextId: nat)
    requires |types| > 0
    ensures Recycle(prev, types, nextId).sections[0] in prev
            <==> (exists k :: 0 <= k < |prev| && prev[k].sectionType == types[0])
    ensures (exists k :: 0 <= k < |prev| && prev[k].sectionType == types[0])
            ==> Recycle(prev, types, nextId).sections[0] == prev[LastOfType(prev, types[0])]
  {
    LastOfTypeFound(prev, types[0]);
  }

  lemma {:induction false} LastOfTypeFound(prev: seq<Section>, t: int)
    ensures LastOfType(prev, t) >= 0 <==> exists k :: 0 <= k < |prev| && prev[k].sectionType == t
    decreases |prev|
  {
    if |prev| > 0 && prev[|prev| - 1].sectionType != t {
      var init := prev[..|prev| - 1];
      LastOfTypeFound(init, t);
      if exists k :: 0 <= k < |prev| && prev[k].sectionType == t {
        var k :| 0 <= k < |prev| && prev[k].sectionType == t;
        assert init[k] == prev[k];
      }
    }
  }

  /** Distinct identities: no section appears twice. */
  predicate DistinctIds(sections: seq<Section>)
  {
    forall i, j :: 0 <= i < j < |sections| ==> sections[i].id != sections[j].id
  }

  /** Every identity is below `bound`: the next fresh id has not been used. */
  predicate IdBelow(sections: seq<Section>, bound: nat)
  {
    forall k :: 0 <= k < |sections| ==> sections[k].id < bound
  }

  /** A section is an old one (with an old id) or carries an id from the fresh range [lo, hi). */
  predicate FromOldOrFresh(x: Section, prev: seq<Section>, lo: nat, hi: nat)
  {
    (x in prev && x.id < lo) || lo <= x.id < hi
  }

  /** Element k of `Remove(s, j)` is an element of s other than s[j]. */
  lemma RemovedElement<T>(s: seq<T>, j: nat, k: nat)
    requires j < |s| && k < |s| - 1
    ensures var k' := if k < j then k else k + 1;
            k' != j && k' < |s| && Remove(s, j)[k] == s[k']
  {
  }

  /** Section i of the result is either an old section or carries a fresh id. */
  lemma {:induction false} RecycleOrigin(prev: seq<Section>, types: seq<int>, nextId: nat, i: nat)
    requires IdBelow(prev, nextId)
    requires i < |types|
    ensures FromOldOrFresh(Recycle(prev, types, nextId).sections[i], prev, nextId, Recycle(prev, types, nextId).nextId)
    decreases i, 1
  {
    if LastOfType(prev, types[0]) >= 0 {
      RecycleOriginReused(prev, types, nextId, i);
    } else {
      RecycleOriginCreated(prev, types, nextId, i);
    }
  }

  lemma {:induction false} RecycleOriginReused(prev: seq<Section>, types: seq<int>, nextId: nat, i: nat)
    requires IdBelow(prev, nextId)
    requires i < |types| && LastOfType(prev, types[0]) >= 0
    ensures FromOldOrFresh(Recycle(prev, types, nextId).sections[i], prev, nextId, Recycle(prev, types, nextId).nextId)
    decreases i, 0
  {
    var j := LastOfType(prev, types[0]);
    var prev' := Remove(prev, j);
    var rest := Recycle(prev', types[1..], nextId);
    assert Recycle(prev, types, nextId) == Recycled([prev[j]] + rest.sections, rest.unused, rest.nextId);
    if i > 0 {
      assert IdBelow(prev', nextId) by {
        forall k | 0 <= k < |prev'| ensures prev'[k].id < nextId {
          RemovedElement(prev, j, k);
        }
      }
      RecycleOrigin(prev', types[1..], nextId, i - 1);
      if rest.sections[i - 1] in prev' && rest.sections[i - 1].id < nextId {
        var k :| 0 <= k < |prev'| && prev'[k] == rest.sections[i - 1];
        RemovedElement(prev, j, k);
      }
    }
  }

  lemma {:induction false} RecycleOriginCreated(prev: seq<Section>, types: seq<int>, nextId: nat, i: nat)
    requires IdBelow(prev, nextId)
    requires i < |types| && LastOfType(prev, types[0]) < 0
    ensures FromOldOrFresh(Recycle(prev, types, nextId).sections[i], prev, nextId, Recycle(prev, types, nextId).nextId)
    decreases i, 0
  {
    var rest := Recycle(prev, types[1..], nextId + 1);
    assert Recycle(prev, types, nextId) == Recycled([Section(types[0], nextId, 0)] + rest.sections, rest.unused, rest.nextId);
    if i > 0 {
      assert IdBelow(prev, nextId + 1);
      RecycleOrigin(prev, types[1..], nextId + 1, i - 1);
      if rest.sections[i - 1] in prev {
        var k :| 0 <= k < |prev| && prev[k] == rest.sections[i - 1];
        assert prev[k].id < nextId;
      }
    }
  }

  /**
   * Every old section is reused at most once: if the old sections have
   * distinct identities below `nextId`, the new sections a and b (a < b)
   * have different identities.
   */
  lemma {:induction false} RecycleReusesAtMostOnce(prev: seq<Section>, types: seq<int>, nextId: nat, a: nat, b: nat)
    requires DistinctIds(prev)
    requires IdBelow(prev, nextId)
    requires a < b < |types|
    ensures Recycle(prev, types, nextId).sections[a].id != Recycle(prev, types, nextId).sections[b].id
    decreases a, 1
  {
    if LastOfType(prev, types[0]) >= 0 {
      RecycleReusedOnce(prev, types, nextId, a, b);
    } else {
      RecycleCreatedOnce(prev, types, nextId, a, b);
    }
  }

  lemma {:induction false} RecycleReusedOnce(prev: seq<Section>, types: seq<int>, nextId: nat, a: nat, b: nat)
    requires DistinctIds(prev)
    requires IdBelow(prev, nextId)
    requires a < b < |types| && LastOfType(prev, types[0]) >= 0
    ensures Recycle(prev, types, nextId).sections[a].id != Recycle(prev, types, nextId).sections[b].id
    decreases a, 0
  {
    var j := LastOfType(prev, types[0]);
    var prev' := Remove(prev, j);
    var rest := Recycle(prev', types[1..], nextId).sections;
    var r := Recycle(prev, types, nextId).sections;
    assert r == [prev[j]] + rest;
    assert r[b] == rest[b - 1];
    if a == 0 {
      assert r[a] == prev[j];
      ReusedIdNotReused(prev, j, types[1..], nextId, b - 1);
    } else {
      assert r[a] == rest[a - 1];
      RemoveKeepsIds(prev, j, nextId);
      RecycleReusesAtMostOnce(prev', types[1..], nextId, a - 1, b - 1);
    }
  }

  /** Removing a section keeps the remaining identities distinct and below the bound. */
  lemma RemoveKeepsIds(prev: seq<Section>, j: nat, nextId: nat)
    requires DistinctIds(prev) && IdBelow(prev, nextId) && j < |prev|
    ensures DistinctIds(Remove(prev, j)) && IdBelow(Remove(prev, j), nextId)
    ensures forall x :: x in Remove(prev, j) ==> x.id != prev[j].id
  {
    var prev' := Remove(prev, j);
    forall k | 0 <= k < |prev'| ensures prev'[k].id < nextId && prev'[k].id != prev[j].id {
      RemovedElement(prev, j, k);
    }
    forall x, y | 0 <= x < y < |prev'| ensures prev'[x].id != prev'[y].id {
      RemovedElement(prev, j, x);
      RemovedElement(prev, j, y);
    }
  }

  /** The id of a reused section is not handed out again once that section is removed. */
  lemma {:induction false} ReusedIdNotReused(prev: seq<Section>, j: nat, types: seq<int>, nextId: nat, i: nat)
    requires DistinctIds(prev) && IdBelow(prev, nextId) && j < |prev|
    requires i < |types|
    ensures Recycle(Remove(prev, j), types, nextId).sections[i].id != prev[j].id
  {
    RemoveKeepsIds(prev, j, nextId);
    var x := Recycle(Remove(prev, j), types, nextId).sections[i];
    RecycleOrigin(Remove(prev, j), types, nextId, i);
    assert x in Remove(prev, j) || nextId <= x.id;
  }

  lemma {:induction false} RecycleCreatedOnce(prev: seq<Section>, types: seq<int>, nextId: nat, a: nat, b: nat)
    requires DistinctIds(prev)
    requires IdBelow(prev, nextId)
    requires a < b < |types| && LastOfType(prev, types[0]) < 0
    ensures Recycle(prev, types, nextId).sections[a].id != Recycle(prev, types, nextId).sections[b].id
    decreases a, 0
  {
    var rest := Recycle(prev, types[1..], nextId + 1).sections;
    var r := Recycle(prev, types, nextId).sections;
    assert r == [Section(types[0], nextId, 0)] + rest;
    assert r[b] == rest[b - 1];
    if a == 0 {
      assert r[a].id == nextId;
      FreshIdNotReused(prev, types[1..], nextId, b - 1);
    } else {
      assert r[a] == rest[a - 1];
      assert IdBelow(prev, nextId + 1);
      RecycleReusesAtMostOnce(prev, types[1..], nextId + 1, a - 1, b - 1);
    }
  }

  /** The id handed to a created section is never handed out again by the rest of the recycling. */
  lemma {:induction false} FreshIdNotReused(prev: seq<Section>, types: seq<int>, nextId: nat, i: nat)
    requires IdBelow(prev, nextId)
    requires i < |types|
    ensures Recycle(prev, types, nextId + 1).sections[i].id != nextId
  {
    var x := Recycle(prev, types, nextId + 1).sections[i];
    RecycleOrigin(prev, types, nextId + 1, i);
    if x in prev {
      var k :| 0 <= k < |prev| && prev[k] == x;
      assert prev[k].id < nextId;
    }
  }

  /**
   * `getCapacity` as written: the running 32-bit sum of the section
   * capacities, with MAX_VALUE returned as soon as a section has it.
   */
  function Capacity(sections: seq<Section>): (r: int)
    ensures (exists i :: 0 <= i < |sections| && sections[i].capacity == MAX_INT) ==> r == MAX_INT
  {
    CapacityFrom(sections, 0)
  }

  function CapacityFrom(sections: seq<Section>, acc: int): (r: int)
    ensures (exists i :: 0 <= i < |sections| && sections[i].capacity == MAX_INT) ==> r == MAX_INT
    decreases |sections|
  {
    if |sections| == 0 then acc
    else if sections[0].capacity == MAX_INT then MAX_INT
    else
      var r := CapacityFrom(sections[1..], Wrap32(acc + sections[0].capacity));
      assert forall i :: 1 <= i < |sections| ==> sections[i] == sections[1..][i - 1];
      r
  }

  function SumCapacities(sections: seq<Section>): int
  {
    if |sections| == 0 then 0 else sections[0].capacity + SumCapacities(sections[1..])
  }

  /**
   * When no section is unbounded and the sum of the (non-negative)
   * capacities fits in an int, the capacity is exactly that sum.
   */
  lemma {:induction false} CapacityIsSum(sections: seq<Section>, acc: int)
    requires forall i :: 0 <= i < |sections| ==> 0 <= sections[i].capacity < MAX_INT
    requires 0 <= acc && acc + SumCapacities(sections) <= MAX_INT
    ensures CapacityFrom(sections, acc) == acc + SumCapacities(sections)
    decreases |sections|
  {
    if |sections| > 0 {
      assert 0 <= SumCapacities(sections[1..]) by { SumNonNegative(sections[1..]); }
      assert Wrap32(acc + sections[0].capacity) == acc + sections[0].capacity;
      CapacityIsSum(sections[1..], acc + sections[0].capacity);
    }
  }

  lemma {:induction false} SumNonNegative(sections: seq<Section>)
    requires forall i :: 0 <= i < |sections| ==> 0 <= sections[i].capacity
    ensures SumCapacities(sections) >= 0
    decreases |sections|
  {
    if |sections| > 0 {
      SumNonNegative(sections[1..]);
    }
  }

  /**
   * `applyResults`: each section, in order, takes the list the previous one
   * returned and returns what it did not consume; a section may throw, which
   * stops the chain.  `inputs` records what each section received.
   */
  datatype Applied<T> = Applied(inputs: seq<seq<T>>, outcome: Outcome<seq<T>>)

  function ApplyChain<S, T>(sections: seq<S>, items: seq<T>, step: (S, seq<T>) -> Outcome<seq<T>>): (r: Applied<T>)
    ensures 1 <= |r.inputs| <= |sections| + 1 && r.inputs[0] == items
    decreases |sections|
  {
    if |sections| == 0 then Applied([items], Ok(items))
    else
      match step(sections[0], items)
      case Thrown(e) => Applied([items], Thrown(e))
      case Ok(rest) =>
        var tail := ApplyChain(sections[1..], rest, step);
        Applied([items] + tail.inputs, tail.outcome)
  }

  /**
   * The trace of a chain: each section received what the previous one
   * returned; on success every section ran and the result is what the last
   * one left; on an exception the chain stopped at the section that threw.
   */
  lemma {:induction false} ApplyChainTrace<S, T>(sections: seq<S>, items: seq<T>, step: (S, seq<T>) -> Outcome<seq<T>>)
    ensures var r := ApplyChain(sections, items, step);
            && (forall i :: 0 <= i < |r.inputs| - 1 ==> step(sections[i], r.inputs[i]) == Ok(r.inputs[i + 1]))
            && (r.outcome.Ok? ==> |r.inputs| == |sections| + 1 && r.outcome.value == r.inputs[|sections|])
            && (r.outcome.Thrown? ==> |r.inputs| <= |sections|
                                      && step(sections[|r.inputs| - 1], r.inputs[|r.inputs| - 1]) == r.outcome)
    decreases |sections|
  {
    if |sections| > 0 {
      match step(sections[0], items)
      case Thrown(e) =>
      case Ok(rest) =>
        ApplyChainTrace(sections[1..], rest, step);
        var tail := ApplyChain(sections[1..], rest, step);
        var r := ApplyChain(sections, items, step);
        assert r.inputs == [items] + tail.inputs;
        forall i | 1 <= i < |r.inputs| - 1 ensures step(sections[i], r.inputs[i]) == Ok(r.inputs[i + 1]) {
          assert sections[i] == sections[1..][i - 1];
          assert r.inputs[i] == tail.inputs[i - 1] && r.inputs[i + 1] == tail.inputs[i];
        }
    }
  }

  /** Continue a chain outcome with more sections. */
  function Then<S, T>(o: Outcome<seq<T>>, sections: seq<S>, step: (S, seq<T>) -> Outcome<seq<T>>): Outcome<seq<T>>
  {
    match o
    case Ok(rest) => ApplyChain(sections, rest, step).outcome
    case Thrown(e) => Thrown(e)
  }

  /** Applying a + b is applying a, then b to what a left; an exception in a stops everything. */
  lemma {:induction false} ChainAppend<S, T>(a: seq<S>, b: seq<S>, items: seq<T>, step: (S, seq<T>) -> Outcome<seq<T>>)
    ensures ApplyChain(a + b, items, step).outcome == Then(ApplyChain(a, items, step).outcome, b, step)
    decreases |a|
  {
    if |a| > 0 {
      assert (a + b)[0] == a[0] && (a + b)[1..] == a[1..] + b;
      match step(a[0], items)
      case Thrown(e) =>
      case Ok(rest) => ChainAppend(a[1..], b, rest, step);
    } else {
      assert a + b == b;
    }
  }

  /** One step of the chain: the first section, then the rest on what it left. */
  lemma ChainCons<S, T>(sections: seq<S>, items: seq<T>, step: (S, seq<T>) -> Outcome<seq<T>>)
    requires |sections| > 0
    ensures ApplyChain(sections, items, step).outcome == Then(step(sections[0], items), sections[1..], step)
  {
  }
}
