/**
 * The candidate-value computation of `AvoidanceClass::valid_values`
 * (src/rust_core/perm_sets/avoidance.rs), as functions, with what it
 * guarantees, and `ValidValues`, the method that runs it with loops. In the
 * source `valid_values` is an associated function of `AvoidanceClass` that
 * takes no `self`; here it sits beside the functions that specify it.
 */
module Extensions {
  import opened Wrappers
  import opened Perms

  /**
   * One cache level: each permutation of one length, with the values it may be
   * extended by, once they are known (`None` before, and again once cleared).
   */
  type Level = map<Perm, Option<seq<nat>>>

  /** Why building a level fails; each is a panic in the source. */
  datatype BuildError =
    | EmptyBasis                    // `expect("patterns in the basis")`
    | MissingSubPerm(sub: Perm)     // `expect("Permutation to be in cache")`
    | NoCachedExtensions(sub: Perm) // `expect("Permutation to have cached extensions")`
    | NoProbes                      // `expect("values to be initialized")`

  /** The first probed position of a permutation of length n: n - maxPattLen, saturating at 0. */
  function ProbeStart(n: nat, maxPattLen: nat): (s: nat)
    ensures s <= n && n - s <= maxPattLen
    ensures s == 0 || n - s == maxPattLen
  {
    if n >= maxPattLen then n - maxPattLen else 0
  }

  /** The values one cached extension `k` of a sub-permutation stands for, for a deleted point of value `val`. */
  function Renumber(k: nat, val: nat): seq<nat> {
    (if k <= val then [k] else []) + (if k >= val then [k + 1] else [])
  }

  /** `x` stands for `k` exactly when deleting the point `val` lowers it to `k`; no value twice. */
  lemma RenumberMembers(k: nat, val: nat)
    ensures forall x :: x in Renumber(k, val) <==> Lower(x, val) == k
    ensures Distinct(Renumber(k, val))
  {
  }

  /** The `potential_values` built from a cached extension list, in its order. */
  function Potential(elements: seq<nat>, val: nat): seq<nat> {
    if elements == [] then []
    else Potential(elements[..|elements| - 1], val) + Renumber(elements[|elements| - 1], val)
  }

  /**
   * A potential value is exactly one whose lowered value is a cached
   * extension, and distinct cached extensions give distinct potential values.
   */
  lemma {:induction false} PotentialMembers(elements: seq<nat>, val: nat)
    ensures forall x :: x in Potential(elements, val) <==> Lower(x, val) in elements
    ensures Distinct(elements) ==> Distinct(Potential(elements, val))
    decreases |elements|
  {
    if elements != [] {
      var init := elements[..|elements| - 1];
      var k := elements[|elements| - 1];
      PotentialMembers(init, val);
      RenumberMembers(k, val);
      assert elements == init + [k];
      assert forall x :: x in elements <==> x in init || x == k;
      assert Distinct(elements) ==> k !in init;
      DistinctConcat(Potential(init, val), Renumber(k, val));
    }
  }

  /** The values of `potential` that are also in `acc`, in the order of `potential`. */
  function Intersect(acc: seq<nat>, potential: seq<nat>): seq<nat> {
    if potential == [] then []
    else
      var x := potential[|potential| - 1];
      Intersect(acc, potential[..|potential| - 1]) + (if x in acc then [x] else [])
  }

  /** The intersection holds exactly the values in both, each once when `potential` has no repeats. */
  lemma {:induction false} IntersectMembers(acc: seq<nat>, potential: seq<nat>)
    ensures forall x :: x in Intersect(acc, potential) <==> x in acc && x in potential
    ensures Distinct(potential) ==> Distinct(Intersect(acc, potential))
    decreases |potential|
  {
    if potential != [] {
      var init := potential[..|potential| - 1];
      var x := potential[|potential| - 1];
      IntersectMembers(acc, init);
      assert potential == init + [x];
      assert forall y :: y in potential <==> y in init || y == x;
      assert Distinct(potential) ==> x !in init && Distinct(init);
      DistinctConcat(Intersect(acc, init), if x in acc then [x] else []);
    }
  }

  /** The sub-permutation at position `sub` has cached extension values. */
  ghost predicate HasExtensions(prev: Level, sub: Perm) {
    sub in prev && prev[sub].Some?
  }

  /** `w` is among the cached extension values of `sub`. */
  ghost predicate Extends(prev: Level, sub: Perm, w: nat) {
    HasExtensions(prev, sub) && w in prev[sub].value
  }

  /** The potential values contributed by deleting position i of `perm`, or why the lookup fails. */
  function Probe(perm: Perm, i: nat, prev: Level): Result<seq<nat>, BuildError>
    requires i < |perm|
  {
    var sub := Remove(perm, i);
    if sub !in prev then Err(MissingSubPerm(sub))
    else if prev[sub].None? then Err(NoCachedExtensions(sub))
    else Ok(Potential(prev[sub].value, perm[i]))
  }

  /** The probes of positions i, i+1, ..., |perm|-1 in turn, intersected into `acc`. */
  function ProbeFrom(perm: Perm, prev: Level, i: nat, acc: Option<seq<nat>>): Result<Option<seq<nat>>, BuildError>
    requires i <= |perm|
    decreases |perm| - i
  {
    if i == |perm| then Ok(acc)
    else
      match Probe(perm, i, prev)
      case Err(e) => Err(e)
      case Ok(potential) =>
        var next := match acc
          case None => potential
          case Some(vec) => Intersect(vec, potential);
        ProbeFrom(perm, prev, i + 1, Some(next))
  }

  /**
   * What `valid_values(perm, maxPattLen, prev)` returns: `[0]` when there is no
   * previous level, otherwise the intersection of the probes of the last
   * maxPattLen positions, or the error it panics with.
   */
  function Candidates(perm: Perm, maxPattLen: nat, prev: Option<Level>): Result<seq<nat>, BuildError> {
    match prev
    case None => Ok([0])
    case Some(level) =>
      match ProbeFrom(perm, level, ProbeStart(|perm|, maxPattLen), None)
      case Err(e) => Err(e)
      case Ok(None) => Err(NoProbes)
      case Ok(Some(values)) => Ok(values)
  }

  /** One probe that succeeds moves the intersection on by one position. */
  lemma ProbeFromStep(perm: Perm, prev: Level, i: nat, acc: Option<seq<nat>>, next: seq<nat>)
    requires i < |perm| && HasExtensions(prev, Remove(perm, i))
    requires next == if acc.None? then Probe(perm, i, prev).value else Intersect(acc.value, Probe(perm, i, prev).value)
    ensures ProbeFrom(perm, prev, i, acc) == ProbeFrom(perm, prev, i + 1, Some(next))
  {
  }

  /** A probe whose lookup fails ends the fold with that failure. */
  lemma ProbeFromStop(perm: Perm, prev: Level, i: nat, acc: Option<seq<nat>>)
    requires i < |perm| && !HasExtensions(prev, Remove(perm, i))
    ensures Remove(perm, i) !in prev ==> ProbeFrom(perm, prev, i, acc) == Err(MissingSubPerm(Remove(perm, i)))
    ensures Remove(perm, i) in prev ==> ProbeFrom(perm, prev, i, acc) == Err(NoCachedExtensions(Remove(perm, i)))
  {
  }

  lemma {:induction false} ProbeFromOutcome(perm: Perm, prev: Level, i: nat, acc: Option<seq<nat>>)
    requires i <= |perm|
    ensures var r := ProbeFrom(perm, prev, i, acc);
            && (r.Err? <==> exists j :: i <= j < |perm| && !HasExtensions(prev, Remove(perm, j)))
            && (r.Ok? ==> (r.value.None? <==> acc.None? && i == |perm|))
    decreases |perm| - i
  {
    if i < |perm| {
      match Probe(perm, i, prev)
      case Err(e) =>
        assert !HasExtensions(prev, Remove(perm, i));
      case Ok(potential) =>
        var next := match acc
          case None => potential
          case Some(vec) => Intersect(vec, potential);
        ProbeFromOutcome(perm, prev, i + 1, Some(next));
    }
  }

  lemma {:induction false} ProbeFromError(perm: Perm, prev: Level, i: nat, acc: Option<seq<nat>>)
    requires i <= |perm|
    requires ProbeFrom(perm, prev, i, acc).Err?
    ensures var e := ProbeFrom(perm, prev, i, acc).error;
            exists j :: i <= j < |perm| && Probe(perm, j, prev) == Err(e)
    decreases |perm| - i
  {
    match Probe(perm, i, prev)
    case Err(e) =>
    case Ok(potential) =>
      var next := match acc
        case None => potential
        case Some(vec) => Intersect(vec, potential);
      ProbeFromError(perm, prev, i + 1, Some(next));
  }

  /** A probe's potential values are those whose lowered value the sub-permutation records. */
  lemma ProbeMembers(perm: Perm, prev: Level, i: nat, x: nat)
    requires i < |perm| && Probe(perm, i, prev).Ok?
    ensures x in Probe(perm, i, prev).value <==> Extends(prev, Remove(perm, i), Lower(x, perm[i]))
  {
    PotentialMembers(prev[Remove(perm, i)].value, perm[i]);
  }

  lemma {:induction false} ProbeFromMembers(perm: Perm, prev: Level, i: nat, acc: Option<seq<nat>>, x: nat)
    requires i <= |perm|
    requires ProbeFrom(perm, prev, i, acc).Ok? && ProbeFrom(perm, prev, i, acc).value.Some?
    ensures x in ProbeFrom(perm, prev, i, acc).value.value <==>
              && (acc.None? || x in acc.value)
              && forall j :: i <= j < |perm| ==> Extends(prev, Remove(perm, j), Lower(x, perm[j]))
    decreases |perm| - i
  {
    if i < |perm| {
      var potential := Probe(perm, i, prev).value;
      var next := match acc
        case None => potential
        case Some(vec) => Intersect(vec, potential);
      ProbeMembers(perm, prev, i, x);
      if acc.Some? {
        IntersectMembers(acc.value, potential);
      }
      ProbeFromMembers(perm, prev, i + 1, Some(next), x);
    }
  }

  lemma {:induction false} ProbeFromDistinct(perm: Perm, prev: Level, i: nat, acc: Option<seq<nat>>)
    requires i <= |perm|
    requires acc.None? || Distinct(acc.value)
    requires forall j :: i <= j < |perm| && HasExtensions(prev, Remove(perm, j)) ==> Distinct(prev[Remove(perm, j)].value)
    requires ProbeFrom(perm, prev, i, acc).Ok? && ProbeFrom(perm, prev, i, acc).value.Some?
    ensures Distinct(ProbeFrom(perm, prev, i, acc).value.value)
    decreases |perm| - i
  {
    if i < |perm| {
      var potential := Probe(perm, i, prev).value;
      var next := match acc
        case None => potential
        case Some(vec) => Intersect(vec, potential);
      PotentialMembers(prev[Remove(perm, i)].value, perm[i]);
      if acc.Some? {
        IntersectMembers(acc.value, potential);
      }
      ProbeFromDistinct(perm, prev, i + 1, Some(next));
    }
  }

  lemma {:induction false} ProbeFromFrame(perm: Perm, prev: Level, prev': Level, i: nat, acc: Option<seq<nat>>)
    requires i <= |perm|
    requires forall j :: i <= j < |perm| ==>
               (Remove(perm, j) in prev <==> Remove(perm, j) in prev') &&
               (Remove(perm, j) in prev ==> prev[Remove(perm, j)] == prev'[Remove(perm, j)])
    ensures ProbeFrom(perm, prev, i, acc) == ProbeFrom(perm, prev', i, acc)
    decreases |perm| - i
  {
    if i < |perm| {
      assert Probe(perm, i, prev) == Probe(perm, i, prev');
      match Probe(perm, i, prev)
      case Err(e) =>
      case Ok(potential) =>
        var next := match acc
          case None => potential
          case Some(vec) => Intersect(vec, potential);
        ProbeFromFrame(perm, prev, prev', i + 1, Some(next));
    }
  }

  /**
   * `valid_values` fails exactly when the probe range is empty (maxPattLen = 0,
   * or the empty permutation) or some probed sub-permutation is missing from
   * the previous level or has no cached extensions; which error it reports.
   */
  lemma CandidatesFailure(perm: Perm, maxPattLen: nat, prev: Level)
    ensures var r := Candidates(perm, maxPattLen, Some(prev));
            var start := ProbeStart(|perm|, maxPattLen);
            && (r.Err? <==> start == |perm| || exists j :: start <= j < |perm| && !HasExtensions(prev, Remove(perm, j)))
            && (r == Err(NoProbes) <==> start == |perm|)
            && (r.Err? && r.error.MissingSubPerm? ==>
                  exists j :: start <= j < |perm| && r.error.sub == Remove(perm, j) && r.error.sub !in prev)
            && (r.Err? && r.error.NoCachedExtensions? ==>
                  exists j :: start <= j < |perm| && r.error.sub == Remove(perm, j) && r.error.sub in prev && prev[r.error.sub].None?)
  {
    var start := ProbeStart(|perm|, maxPattLen);
    ProbeFromOutcome(perm, prev, start, None);
    if ProbeFrom(perm, prev, start, None).Err? {
      ProbeFromError(perm, prev, start, None);
      var e := ProbeFrom(perm, prev, start, None).error;
      var j :| start <= j < |perm| && Probe(perm, j, prev) == Err(e);
      assert e.MissingSubPerm? ==> e.sub == Remove(perm, j) && e.sub !in prev;
      assert e.NoCachedExtensions? ==> e.sub == Remove(perm, j) && e.sub in prev && prev[e.sub].None?;
    }
  }

  /**
   * The intersection property: a value is a candidate exactly when, for every
   * probed position j, it arises from a cached extension k of the
   * sub-permutation without j, as k when k <= perm[j] or as k + 1 when
   * k >= perm[j].
   */
  lemma CandidatesMembers(perm: Perm, maxPattLen: nat, prev: Level, x: nat)
    requires Candidates(perm, maxPattLen, Some(prev)).Ok?
    ensures x in Candidates(perm, maxPattLen, Some(prev)).value <==>
              forall j :: ProbeStart(|perm|, maxPattLen) <= j < |perm| ==>
                Extends(prev, Remove(perm, j), Lower(x, perm[j]))
  {
    ProbeFromMembers(perm, prev, ProbeStart(|perm|, maxPattLen), None, x);
  }

  /**
   * If the probed sub-permutations' cached values are distinct and lie in
   * [0, |perm| - 1], the candidates are distinct and lie in [0, |perm|].
   */
  lemma CandidatesBounded(perm: Perm, maxPattLen: nat, prev: Level)
    requires Candidates(perm, maxPattLen, Some(prev)).Ok?
    requires forall j :: ProbeStart(|perm|, maxPattLen) <= j < |perm| && HasExtensions(prev, Remove(perm, j)) ==>
               Distinct(prev[Remove(perm, j)].value) && forall k :: k in prev[Remove(perm, j)].value ==> k < |perm|
    ensures Distinct(Candidates(perm, maxPattLen, Some(prev)).value)
    ensures forall x :: x in Candidates(perm, maxPattLen, Some(prev)).value ==> x <= |perm|
  {
    var start := ProbeStart(|perm|, maxPattLen);
    ProbeFromDistinct(perm, prev, start, None);
    CandidatesFailure(perm, maxPattLen, prev);
    forall x | x in Candidates(perm, maxPattLen, Some(prev)).value ensures x <= |perm| {
      CandidatesMembers(perm, maxPattLen, prev, x);
      assert Extends(prev, Remove(perm, start), Lower(x, perm[start]));
    }
  }

  /** `valid_values` reads the previous level only at the sub-permutations of the probed positions. */
  lemma CandidatesFrame(perm: Perm, maxPattLen: nat, prev: Level, prev': Level)
    requires forall j :: ProbeStart(|perm|, maxPattLen) <= j < |perm| ==>
               (Remove(perm, j) in prev <==> Remove(perm, j) in prev') &&
               (Remove(perm, j) in prev ==> prev[Remove(perm, j)] == prev'[Remove(perm, j)])
    ensures Candidates(perm, maxPattLen, Some(prev)) == Candidates(perm, maxPattLen, Some(prev'))
  {
    ProbeFromFrame(perm, prev, prev', ProbeStart(|perm|, maxPattLen), None);
  }

  /**
   * `valid_values`: `[0]` when there is no previous level; otherwise the
   * candidates from the probed positions ProbeStart(|perm|, maxPattLen) .. |perm| - 1,
   * or the lookup failure.
   */
  method ValidValues(perm: Perm, maxPattLen: nat, prev: Option<Level>) returns (r: Result<seq<nat>, BuildError>)
    ensures r == Candidates(perm, maxPattLen, prev)
    ensures prev.None? ==> r == Ok([0])
  {
    if prev.None? {
      return Ok([0]);
    }
    var level := prev.value;
    var values: Option<seq<nat>> := None;
    var n := |perm|;
    var start := if n >= maxPattLen then n - maxPattLen else 0;
    assert start == ProbeStart(|perm|, maxPattLen);
    var i := start;
    while i < n
      invariant start <= i <= n
      invariant ProbeFrom(perm, level, i, values) == ProbeFrom(perm, level, start, None)
      decreases n - i
    {
      var probe := ProbePosition(perm, level, i);
      if probe.Err? {
        ProbeFromStop(perm, level, i, values);
        return Err(probe.error);
      }
      var potentialValues := probe.value;
      var next := potentialValues;
      if values.Some? {
        next := IntersectValues(values.value, potentialValues);
      }
      ProbeFromStep(perm, level, i, values, next);
      values := Some(next);
      i := i + 1;
    }
    if values.None? {
      return Err(NoProbes);
    }
    return Ok(values.value);
  }

  /**
   * One probe of `valid_values`: look up the permutation without position i
   * in the previous level and renumber its cached extensions around perm[i].
   */
  method ProbePosition(perm: Perm, level: Level, i: nat) returns (r: Result<seq<nat>, BuildError>)
    requires i < |perm|
    ensures r == Probe(perm, i, level)
  {
    var subPerm := Remove(perm, i);
    if subPerm !in level {
      return Err(MissingSubPerm(subPerm));
    }
    if level[subPerm].None? {
      return Err(NoCachedExtensions(subPerm));
    }
    var elements := level[subPerm].value;
    var potentialValues := PotentialValues(elements, perm[i]);
    return Ok(potentialValues);
  }

  /** The loop of `valid_values` that renumbers each cached value k into k (k <= val) and k + 1 (k >= val). */
  method PotentialValues(elements: seq<nat>, val: nat) returns (potentialValues: seq<nat>)
    ensures potentialValues == Potential(elements, val)
  {
    potentialValues := [];
    var j := 0;
    while j < |elements|
      invariant j <= |elements|
      invariant potentialValues == Potential(elements[..j], val)
    {
      var k := elements[j];
      assert elements[..j + 1][..j] == elements[..j];
      if k <= val {
        potentialValues := potentialValues + [k];
      }
      if k >= val {
        potentialValues := potentialValues + [k + 1];
      }
      j := j + 1;
    }
    assert elements[..j] == elements;
  }

  /** The loop of `valid_values` that keeps the potential values already in `vec`. */
  method IntersectValues(vec: seq<nat>, potentialValues: seq<nat>) returns (tmp: seq<nat>)
    ensures tmp == Intersect(vec, potentialValues)
  {
    tmp := [];
    var t := 0;
    while t < |potentialValues|
      invariant t <= |potentialValues|
      invariant tmp == Intersect(vec, potentialValues[..t])
    {
      assert potentialValues[..t + 1][..t] == potentialValues[..t];
      if potentialValues[t] in vec {
        tmp := tmp + [potentialValues[t]];
      }
      t := t + 1;
    }
    assert potentialValues[..t] == potentialValues;
  }

}
