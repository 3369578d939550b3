/**
 * The cache-driven builder of permutation avoidance classes
 * (src/rust_core/perm_sets/avoidance.rs).
 *
 * `AvoidanceClass` holds a basis of patterns and a list of cache levels;
 * level i maps each admitted permutation of length i to the values it has
 * been extended by. An entry is `None` when its level is created, records
 * its admitted values in the round that builds level i + 1 (staying `None`
 * when none was admitted), and is reset to `None` at the end of the round
 * that builds level i + 2: only the level just below the top holds lists.
 * `BuildPermClass` grows the list one level at a time.
 * One round of that loop is specified by the ghost function `Step`, the whole
 * call by `Build`; `WellFormed` is the invariant the rounds keep.
 */
module Avoidance {
  import opened Wrappers
  import opened Perms
  import opened Extensions

  /** The length of a longest basis pattern; None for an empty basis. */
  function MaxPattLen(basis: seq<Perm>): (r: Option<nat>)
    ensures r.None? <==> basis == []
    ensures r.Some? ==> exists i :: 0 <= i < |basis| && Len(basis[i]) == r.value
    ensures r.Some? ==> forall i :: 0 <= i < |basis| ==> Len(basis[i]) <= r.value
  {
    if basis == [] then None
    else
      var last := Len(basis[|basis| - 1]);
      match MaxPattLen(basis[..|basis| - 1])
      case None => Some(last)
      case Some(m) => Some(if last >= m then last else m)
  }

  /**
   * The admission test of a new child exactly as the source writes it: SOME
   * basis pattern differs from the child.
   */
  function Admits(basis: seq<Perm>, child: Perm): bool {
    exists i :: 0 <= i < |basis| && GetPerm(basis[i]) != child
  }

  /** The values of `values` whose child passes the admission test, in order. */
  function AdmittedValues(basis: seq<Perm>, perm: Perm, values: seq<nat>): seq<nat> {
    if values == [] then []
    else
      var v := values[|values| - 1];
      AdmittedValues(basis, perm, values[..|values| - 1]) + if Admits(basis, Append(perm, v)) then [v] else []
  }

  /** A value is recorded exactly when it is a candidate whose child is admitted; none is recorded twice. */
  lemma {:induction false} AdmittedValuesMembers(basis: seq<Perm>, perm: Perm, values: seq<nat>)
    ensures forall v :: v in AdmittedValues(basis, perm, values) <==> v in values && Admits(basis, Append(perm, v))
    ensures Distinct(values) ==> Distinct(AdmittedValues(basis, perm, values))
    decreases |values|
  {
    if values != [] {
      var init := values[..|values| - 1];
      var v := values[|values| - 1];
      AdmittedValuesMembers(basis, perm, init);
      assert values == init + [v];
      assert forall x :: x in values <==> x in init || x == v;
      assert Distinct(values) ==> v !in init && Distinct(init);
      DistinctConcat(AdmittedValues(basis, perm, init), if Admits(basis, Append(perm, v)) then [v] else []);
    }
  }

  /** A parent's extension list after each of `admitted` was pushed onto it (a `None` is replaced). */
  function Record(cached: Option<seq<nat>>, admitted: seq<nat>): Option<seq<nat>> {
    if admitted == [] then cached else Some(cached.GetOr([]) + admitted)
  }

  /** Recording one more value pushes it onto the list, or replaces a None by a one-value list. */
  lemma RecordPush(cached: Option<seq<nat>>, admitted: seq<nat>, v: nat)
    ensures Record(cached, admitted + [v]) == match Record(cached, admitted)
                                              case Some(vec) => Some(vec + [v])
                                              case None => Some([v])
  {
    assert cached.GetOr([]) + (admitted + [v]) == (cached.GetOr([]) + admitted) + [v];
    assert [] + [v] == [v];
  }

  /** The children of `perm` admitted from the candidate values `values`. */
  ghost function ChildrenOf(basis: seq<Perm>, perm: Perm, values: seq<nat>): set<Perm> {
    set v | v in AdmittedValues(basis, perm, values) :: Append(perm, v)
  }

  /** Filtering one more candidate value appends it exactly when its child is admitted. */
  lemma AdmittedValuesPush(basis: seq<Perm>, perm: Perm, values: seq<nat>, j: nat)
    requires j < |values|
    ensures AdmittedValues(basis, perm, values[..j + 1]) ==
              if Admits(basis, Append(perm, values[j])) then AdmittedValues(basis, perm, values[..j]) + [values[j]]
              else AdmittedValues(basis, perm, values[..j])
  {
    assert values[..j + 1][..j] == values[..j];
    assert AdmittedValues(basis, perm, values[..j]) + [] == AdmittedValues(basis, perm, values[..j]);
  }

  /** Filtering one more candidate value adds its child exactly when the child is admitted. */
  lemma ChildrenOfPush(basis: seq<Perm>, perm: Perm, values: seq<nat>, j: nat)
    requires j < |values|
    ensures ChildrenOf(basis, perm, values[..j + 1]) ==
              ChildrenOf(basis, perm, values[..j]) + if Admits(basis, Append(perm, values[j])) then {Append(perm, values[j])} else {}
  {
    AdmittedValuesPush(basis, perm, values, j);
  }

  /** The level below the top one, if there is one. */
  function PrevLevel(cache: seq<Level>): Option<Level>
    requires |cache| >= 1
  {
    if |cache| >= 2 then Some(cache[|cache| - 2]) else None
  }

  /** The values a parent records: its candidates whose children are admitted. */
  ghost function Admitted(basis: seq<Perm>, maxPattLen: nat, prev: Option<Level>, p: Perm): seq<nat> {
    match Candidates(p, maxPattLen, prev)
    case Ok(values) => AdmittedValues(basis, p, values)
    case Err(_) => []
  }

  /** All children admitted from the parents `parents`. */
  ghost function Children(basis: seq<Perm>, maxPattLen: nat, prev: Option<Level>, parents: set<Perm>): set<Perm> {
    set p, v | p in parents && v in Admitted(basis, maxPattLen, prev, p) :: Append(p, v)
  }

  /** The level with every extension list dropped and every key kept. */
  function Clear(level: Level): Level {
    map p | p in level :: None
  }

  /** The top level once each parent has recorded its admitted values. */
  ghost function ParentsAfter(basis: seq<Perm>, maxPattLen: nat, prev: Option<Level>, top: Level): Level {
    map p | p in top :: Record(top[p], Admitted(basis, maxPattLen, prev, p))
  }

  /** The top level part-way through a round: the parents in `done` have recorded their admitted values. */
  ghost function PartlyRecorded(basis: seq<Perm>, maxPattLen: nat, prev: Option<Level>, top: Level, done: set<Perm>): Level {
    map p | p in top :: if p in done then Record(top[p], Admitted(basis, maxPattLen, prev, p)) else top[p]
  }

  /** Recording one more parent moves it into `done`. */
  lemma PartlyRecordedStep(basis: seq<Perm>, maxPattLen: nat, prev: Option<Level>, top: Level, done: set<Perm>, p: Perm, values: seq<nat>)
    requires p in top && p !in done && Candidates(p, maxPattLen, prev) == Ok(values)
    ensures PartlyRecorded(basis, maxPattLen, prev, top, done)[p := Record(top[p], AdmittedValues(basis, p, values))] ==
              PartlyRecorded(basis, maxPattLen, prev, top, done + {p})
  {
  }

  /** One parent's turn of a round: it records its admitted values and its children join the new level. */
  lemma RecordOneParent(basis: seq<Perm>, maxPattLen: nat, prev: Option<Level>, top: Level, done: set<Perm>,
                        p: Perm, values: seq<nat>, cached: Option<seq<nat>>, perms: Level)
    requires p in top && p !in done && Candidates(p, maxPattLen, prev) == Ok(values)
    requires cached == Record(PartlyRecorded(basis, maxPattLen, prev, top, done)[p], AdmittedValues(basis, p, values))
    requires perms == Unexplored(Children(basis, maxPattLen, prev, done)) + Unexplored(ChildrenOf(basis, p, values))
    ensures PartlyRecorded(basis, maxPattLen, prev, top, done)[p := cached] == PartlyRecorded(basis, maxPattLen, prev, top, done + {p})
    ensures perms == Unexplored(Children(basis, maxPattLen, prev, done + {p}))
  {
    PartlyRecordedStep(basis, maxPattLen, prev, top, done, p, values);
    ChildrenInsert(basis, maxPattLen, prev, done, p, values);
    UnexploredUnion(Children(basis, maxPattLen, prev, done), ChildrenOf(basis, p, values));
  }

  /** Once every parent is done, the top level is the one `Step` describes. */
  lemma PartlyRecordedAll(basis: seq<Perm>, maxPattLen: nat, prev: Option<Level>, top: Level)
    ensures PartlyRecorded(basis, maxPattLen, prev, top, top.Keys) == ParentsAfter(basis, maxPattLen, prev, top)
  {
  }

  /** A level holding `perms`, none of them with extension data yet. */
  function Unexplored(perms: set<Perm>): Level {
    map c | c in perms :: None
  }

  /** Inserting one more permutation with no extension data. */
  lemma UnexploredInsert(m: Level, perms: set<Perm>, c: Perm)
    ensures (m + Unexplored(perms))[c := None] == m + Unexplored(perms + {c})
  {
  }

  lemma UnexploredUnion(a: set<Perm>, b: set<Perm>)
    ensures Unexplored(a) + Unexplored(b) == Unexplored(a + b)
  {
  }

  /** The new level: every admitted child, with no extension data yet. */
  ghost function NextLevel(basis: seq<Perm>, maxPattLen: nat, prev: Option<Level>, top: Level): Level {
    Unexplored(Children(basis, maxPattLen, prev, top.Keys))
  }

  /**
   * One round of the `while` loop of `build_perm_class`: None when some
   * parent's `valid_values` fails, otherwise the cache with the top level's
   * extension lists recorded, the level below it cleared and the new level
   * pushed.
   */
  ghost function Step(cache: seq<Level>, basis: seq<Perm>, maxPattLen: nat): (r: Option<seq<Level>>)
    requires |cache| >= 1
    ensures r.Some? ==> |r.value| == |cache| + 1
  {
    var n := |cache| - 1;
    var top := cache[n];
    var prev := PrevLevel(cache);
    if exists p :: p in top && Candidates(p, maxPattLen, prev).Err? then None
    else
      var below := if n >= 1 then cache[..n][n - 1 := Clear(cache[n - 1])] else [];
      Some(below + [ParentsAfter(basis, maxPattLen, prev, top), NextLevel(basis, maxPattLen, prev, top)])
  }

  /** The cache after `build_perm_class(n)`, or None when it fails. */
  ghost function Build(cache: seq<Level>, basis: seq<Perm>, maxPattLen: nat, n: nat): Option<seq<Level>>
    requires |cache| >= 1
    decreases n + 1 - |cache|
  {
    if n < |cache| then Some(cache)
    else
      match Step(cache, basis, maxPattLen)
      case None => None
      case Some(next) => Build(next, basis, maxPattLen, n)
  }

  /** No permutation of the level holds extension data. */
  ghost predicate NoExtensions(level: Level) {
    forall p :: p in level ==> level[p].None?
  }

  /** Every permutation of the level is a permutation of length `len`. */
  ghost predicate KeysOfLength(level: Level, len: nat) {
    forall p :: p in level ==> |p| == len && IsPerm(p)
  }

  /** Recorded extension values of a length-`len` permutation: distinct, in [0, len]. */
  ghost predicate ExtensionsBounded(values: seq<nat>, len: nat) {
    Distinct(values) && forall v :: v in values ==> v <= len
  }

  /** Every extension list recorded in the level is bounded by `len`. */
  ghost predicate LevelBounded(level: Level, len: nat) {
    forall p :: p in level && level[p].Some? ==> ExtensionsBounded(level[p].value, len)
  }

  /** A parent records w exactly when Append(parent, w) is in the level above. */
  ghost predicate ExtensionsMatch(parents: Level, children: Level) {
    forall p, w :: p in parents ==> ((parents[p].Some? && w in parents[p].value) <==> Append(p, w) in children)
  }

  /**
   * The invariant of the cache between rounds: level 0 holds the empty
   * permutation; level i holds permutations of length i; recorded extension
   * values are bounded; only the level below the top holds extension data,
   * and that data lists exactly the children present in the top level.
   */
  ghost predicate WellFormed(cache: seq<Level>) {
    && |cache| >= 1
    && [] in cache[0]
    && (forall i :: 0 <= i < |cache| ==> KeysOfLength(cache[i], i))
    && (forall i :: 0 <= i < |cache| ==> LevelBounded(cache[i], i))
    && (forall i :: 0 <= i < |cache| - 2 ==> NoExtensions(cache[i]))
    && NoExtensions(cache[|cache| - 1])
    && (|cache| >= 2 ==> ExtensionsMatch(cache[|cache| - 2], cache[|cache| - 1]))
  }

  /** With a single pattern the test as written is "the child differs from the pattern". */
  lemma AdmitsSinglePattern(pattern: Perm, child: Perm)
    ensures Admits([pattern], child) <==> child != pattern
  {
    if child != pattern {
      assert GetPerm([pattern][0]) != child;
    }
  }

  /** With two different patterns the test as written admits every child. */
  lemma AdmitsAllWhenPatternsDiffer(basis: seq<Perm>, i: nat, j: nat, child: Perm)
    requires i < |basis| && j < |basis| && basis[i] != basis[j]
    ensures Admits(basis, child)
  {
    if GetPerm(basis[i]) == child {
      assert GetPerm(basis[j]) != child;
    }
  }

  /** A child longer than every pattern passes the test as written, whatever the basis holds. */
  lemma AdmitsLongChild(basis: seq<Perm>, child: Perm)
    requires MaxPattLen(basis).Some? && Len(child) > MaxPattLen(basis).value
    ensures Admits(basis, child)
  {
    assert Len(basis[0]) <= MaxPattLen(basis).value;
    assert GetPerm(basis[0]) != child;
  }

  /** What one round leaves in each level. */
  lemma StepShape(cache: seq<Level>, basis: seq<Perm>, maxPattLen: nat)
    requires |cache| >= 1 && Step(cache, basis, maxPattLen).Some?
    ensures var next := Step(cache, basis, maxPattLen).value;
            var n := |cache| - 1;
            && (forall p :: p in cache[n] ==> Candidates(p, maxPattLen, PrevLevel(cache)).Ok?)
            && (forall i :: 0 <= i < |cache| ==> next[i].Keys == cache[i].Keys)
            && (forall i :: 0 <= i < n - 1 ==> next[i] == cache[i])
            && (n >= 1 ==> next[n - 1] == Clear(cache[n - 1]) && NoExtensions(next[n - 1]))
            && next[n] == ParentsAfter(basis, maxPattLen, PrevLevel(cache), cache[n])
            && next[n + 1] == NextLevel(basis, maxPattLen, PrevLevel(cache), cache[n])
            && NoExtensions(next[n + 1])
  {
    var n := |cache| - 1;
    var next: seq<Level> := Step(cache, basis, maxPattLen).value;
    forall i | 0 <= i < |cache| ensures next[i].Keys == cache[i].Keys {
      if i == n {
        assert next[i] == ParentsAfter(basis, maxPattLen, PrevLevel(cache), cache[n]);
      }
    }
  }

  /**
   * `valid_values` sees no previous level only in the first round, whose top
   * level holds the empty permutation alone.
   */
  lemma FirstRound(cache: seq<Level>)
    requires WellFormed(cache)
    ensures PrevLevel(cache).None? <==> |cache| == 1
    ensures |cache| == 1 ==> cache[0].Keys == {[]}
  {
    assert KeysOfLength(cache[0], 0);
    forall p | p in cache[0] ensures p == [] {
      assert |p| == 0;
    }
  }

  /**
   * The cache after a successful round, in the order `build_perm_class`
   * writes it: the top level's records stored, the level below cleared, the
   * new level pushed.
   */
  function Grown(cache: seq<Level>, parents: Level, perms: Level): seq<Level>
    requires |cache| >= 1
  {
    var stored := cache[|cache| - 1 := parents];
    (if |cache| >= 2 then stored[|cache| - 2 := Clear(stored[|cache| - 2])] else stored) + [perms]
  }

  /** When every top-level permutation has candidates, writing the round in place gives `Step`'s cache. */
  lemma StepValue(cache: seq<Level>, basis: seq<Perm>, maxPattLen: nat, prev: Option<Level>, next: seq<Level>)
    requires |cache| >= 1 && prev == PrevLevel(cache)
    requires forall p :: p in cache[|cache| - 1] ==> Candidates(p, maxPattLen, prev).Ok?
    requires next == Grown(cache, ParentsAfter(basis, maxPattLen, prev, cache[|cache| - 1]),
                           NextLevel(basis, maxPattLen, prev, cache[|cache| - 1]))
    ensures Step(cache, basis, maxPattLen) == Some(next)
  {
    var n := |cache| - 1;
    var below := if n >= 1 then cache[..n][n - 1 := Clear(cache[n - 1])] else [];
    var top := cache[n];
    assert !exists p :: p in top && Candidates(p, maxPattLen, prev).Err?;
    assert next == below + [ParentsAfter(basis, maxPattLen, prev, top), NextLevel(basis, maxPattLen, prev, top)];
  }

  /** The candidates of a top-level permutation are distinct values in [0, its length]. */
  lemma StepCandidatesBounded(cache: seq<Level>, maxPattLen: nat, p: Perm)
    requires WellFormed(cache) && p in cache[|cache| - 1]
    requires Candidates(p, maxPattLen, PrevLevel(cache)).Ok?
    ensures ExtensionsBounded(Candidates(p, maxPattLen, PrevLevel(cache)).value, |cache| - 1)
  {
    if |cache| >= 2 {
      var prev := cache[|cache| - 2];
      assert KeysOfLength(cache[|cache| - 1], |cache| - 1);
      assert LevelBounded(prev, |cache| - 2);
      forall j | ProbeStart(|p|, maxPattLen) <= j < |p| && HasExtensions(prev, Remove(p, j))
        ensures Distinct(prev[Remove(p, j)].value) && forall k :: k in prev[Remove(p, j)].value ==> k < |p|
      {
        assert ExtensionsBounded(prev[Remove(p, j)].value, |cache| - 2);
      }
      CandidatesBounded(p, maxPattLen, prev);
    } else {
      var r := Candidates(p, maxPattLen, PrevLevel(cache)).value;
      assert r == [0];
    }
  }

  /** Every round keeps the cache invariant. */
  lemma StepPreservesWellFormed(cache: seq<Level>, basis: seq<Perm>, maxPattLen: nat)
    requires WellFormed(cache) && Step(cache, basis, maxPattLen).Some?
    ensures WellFormed(Step(cache, basis, maxPattLen).value)
  {
    var next: seq<Level> := Step(cache, basis, maxPattLen).value;
    var n := |cache| - 1;
    StepShape(cache, basis, maxPattLen);
    StepNewLevels(cache, basis, maxPattLen);
    forall i | 0 <= i < |next| ensures KeysOfLength(next[i], i) {
      if i < |cache| {
        assert KeysOfLength(cache[i], i);
      }
    }
    forall i | 0 <= i < |next| ensures LevelBounded(next[i], i) {
      if i < n - 1 {
        assert next[i] == cache[i];
      }
    }
    forall i | 0 <= i < |next| - 2 ensures NoExtensions(next[i]) {
      if i < n - 1 {
        assert next[i] == cache[i];
      }
    }
    assert [] in next[0] by {
      assert [] in cache[0];
    }
  }

  /** The two levels a round writes: the parents' records and the new children. */
  lemma StepNewLevels(cache: seq<Level>, basis: seq<Perm>, maxPattLen: nat)
    requires WellFormed(cache) && Step(cache, basis, maxPattLen).Some?
    ensures var next := Step(cache, basis, maxPattLen).value;
            var n := |cache| - 1;
            && KeysOfLength(next[n + 1], n + 1)
            && LevelBounded(next[n], n)
            && ExtensionsMatch(next[n], next[n + 1])
  {
    StepChildrenArePerms(cache, basis, maxPattLen);
    StepParentsBounded(cache, basis, maxPattLen);
    StepRecordsChildren(cache, basis, maxPattLen);
  }

  lemma StepChildrenArePerms(cache: seq<Level>, basis: seq<Perm>, maxPattLen: nat)
    requires WellFormed(cache) && Step(cache, basis, maxPattLen).Some?
    ensures KeysOfLength(Step(cache, basis, maxPattLen).value[|cache|], |cache|)
  {
    var n := |cache| - 1;
    var prev := PrevLevel(cache);
    var top := cache[n];
    var children := NextLevel(basis, maxPattLen, prev, top);
    assert Step(cache, basis, maxPattLen).value[n + 1] == children;
    assert KeysOfLength(top, n);
    forall c: Perm | c in children ensures |c| == n + 1 && IsPerm(c) {
      var p, v :| p in top.Keys && v in Admitted(basis, maxPattLen, prev, p) && c == Append(p, v);
      StepCandidatesBounded(cache, maxPattLen, p);
      AdmittedValuesMembers(basis, p, Candidates(p, maxPattLen, prev).value);
      AppendIsPerm(p, v);
    }
  }

  lemma StepParentsBounded(cache: seq<Level>, basis: seq<Perm>, maxPattLen: nat)
    requires WellFormed(cache) && Step(cache, basis, maxPattLen).Some?
    ensures LevelBounded(Step(cache, basis, maxPattLen).value[|cache| - 1], |cache| - 1)
  {
    var n := |cache| - 1;
    var prev := PrevLevel(cache);
    var top := cache[n];
    var parents := ParentsAfter(basis, maxPattLen, prev, top);
    assert Step(cache, basis, maxPattLen).value[n] == parents;
    forall p: Perm | p in parents && parents[p].Some? ensures ExtensionsBounded(parents[p].value, n) {
      assert top[p].None?;
      assert Candidates(p, maxPattLen, prev).Ok?;
      StepCandidatesBounded(cache, maxPattLen, p);
      AdmittedValuesMembers(basis, p, Candidates(p, maxPattLen, prev).value);
    }
  }

  lemma StepRecordsChildren(cache: seq<Level>, basis: seq<Perm>, maxPattLen: nat)
    requires WellFormed(cache) && Step(cache, basis, maxPattLen).Some?
    ensures ExtensionsMatch(Step(cache, basis, maxPattLen).value[|cache| - 1], Step(cache, basis, maxPattLen).value[|cache|])
  {
    var n := |cache| - 1;
    StepShape(cache, basis, maxPattLen);
    ParentsRecordChildren(basis, maxPattLen, PrevLevel(cache), cache[n]);
  }

  /** After a round, each parent records exactly the values of its children in the new level. */
  lemma ParentsRecordChildren(basis: seq<Perm>, maxPattLen: nat, prev: Option<Level>, top: Level)
    requires NoExtensions(top)
    ensures ExtensionsMatch(ParentsAfter(basis, maxPattLen, prev, top), NextLevel(basis, maxPattLen, prev, top))
  {
    var parents := ParentsAfter(basis, maxPattLen, prev, top);
    var children := NextLevel(basis, maxPattLen, prev, top);
    forall p: Perm, w: nat | p in parents
      ensures (parents[p].Some? && w in parents[p].value) <==> Append(p, w) in children
    {
      ChildOfParent(basis, maxPattLen, prev, top, p, w);
    }
  }

  /** Append(p, w) is a new child exactly when w is among the values p records. */
  lemma ChildOfParent(basis: seq<Perm>, maxPattLen: nat, prev: Option<Level>, top: Level, p: Perm, w: nat)
    requires NoExtensions(top) && p in top
    ensures var rec := ParentsAfter(basis, maxPattLen, prev, top)[p];
            && rec == (if Admitted(basis, maxPattLen, prev, p) == [] then None else Some(Admitted(basis, maxPattLen, prev, p)))
            && ((rec.Some? && w in rec.value) <==> Append(p, w) in NextLevel(basis, maxPattLen, prev, top))
  {
    var adm := Admitted(basis, maxPattLen, prev, p);
    var rec := ParentsAfter(basis, maxPattLen, prev, top)[p];
    assert top[p].None?;
    assert rec == Record(None, adm);
    assert [] + adm == adm;
    assert (rec.Some? && w in rec.value) <==> w in adm;
    ChildrenMember(basis, maxPattLen, prev, top.Keys, p, w);
    assert Append(p, w) in NextLevel(basis, maxPattLen, prev, top) <==> Append(p, w) in Children(basis, maxPattLen, prev, top.Keys);
  }

  lemma ChildrenMember(basis: seq<Perm>, maxPattLen: nat, prev: Option<Level>, parents: set<Perm>, p: Perm, w: nat)
    requires p in parents
    ensures Append(p, w) in Children(basis, maxPattLen, prev, parents) <==> w in Admitted(basis, maxPattLen, prev, p)
  {
    if Append(p, w) in Children(basis, maxPattLen, prev, parents) {
      var q, u :| q in parents && u in Admitted(basis, maxPattLen, prev, q) && Append(p, w) == Append(q, u);
      AppendInjective(p, w, q, u);
    }
  }

  /**
   * In one round, a child Append(p, v) of a top-level p enters the new level
   * exactly when v is a candidate of p and the admission test passes; p then
   * holds its admitted values, or stays None when it admitted none.
   */
  lemma StepAdmission(cache: seq<Level>, basis: seq<Perm>, maxPattLen: nat, p: Perm, v: nat)
    requires WellFormed(cache) && Step(cache, basis, maxPattLen).Some?
    requires p in cache[|cache| - 1]
    ensures var next := Step(cache, basis, maxPattLen).value;
            var n := |cache| - 1;
            var prev := PrevLevel(cache);
            && Candidates(p, maxPattLen, prev).Ok?
            && (Append(p, v) in next[n + 1] <==>
                  v in Candidates(p, maxPattLen, prev).value && Admits(basis, Append(p, v)))
            && next[n][p] == (if AdmittedValues(basis, p, Candidates(p, maxPattLen, prev).value) == [] then None
                              else Some(AdmittedValues(basis, p, Candidates(p, maxPattLen, prev).value)))
  {
    var n := |cache| - 1;
    var prev := PrevLevel(cache);
    StepShape(cache, basis, maxPattLen);
    assert NoExtensions(cache[n]);
    AdmittedValuesMembers(basis, p, Candidates(p, maxPattLen, prev).value);
    ChildOfParent(basis, maxPattLen, prev, cache[n], p, v);
  }

  /** Every permutation of the new level is an admitted child of a top-level permutation. */
  lemma StepChildHasParent(cache: seq<Level>, basis: seq<Perm>, maxPattLen: nat, c: Perm)
    requires |cache| >= 1 && Step(cache, basis, maxPattLen).Some?
    requires c in Step(cache, basis, maxPattLen).value[|cache|]
    ensures exists p, v :: && p in cache[|cache| - 1]
                           && Candidates(p, maxPattLen, PrevLevel(cache)).Ok?
                           && v in Candidates(p, maxPattLen, PrevLevel(cache)).value
                           && Admits(basis, Append(p, v))
                           && c == Append(p, v)
  {
    StepShape(cache, basis, maxPattLen);
    var prev := PrevLevel(cache);
    var p, v :| p in cache[|cache| - 1].Keys && v in Admitted(basis, maxPattLen, prev, p) && c == Append(p, v);
    assert Candidates(p, maxPattLen, prev).Ok?;
    AdmittedValuesMembers(basis, p, Candidates(p, maxPattLen, prev).value);
  }

  /**
   * What the cache means to `valid_values`: when `prev` records exactly the
   * children present in `top`, v is a candidate of perm exactly when deleting
   * any probed position j from Append(perm, v) gives a permutation in `top`.
   */
  lemma CandidatesMatchChildren(prev: Level, top: Level, maxPattLen: nat, perm: Perm, v: nat)
    requires IsPerm(perm) && ExtensionsMatch(prev, top)
    requires Candidates(perm, maxPattLen, Some(prev)).Ok?
    ensures v in Candidates(perm, maxPattLen, Some(prev)).value <==>
              forall j :: ProbeStart(|perm|, maxPattLen) <= j < |perm| ==> Remove(Append(perm, v), j) in top
  {
    CandidatesMembers(perm, maxPattLen, prev, v);
    CandidatesFailure(perm, maxPattLen, prev);
    forall j | ProbeStart(|perm|, maxPattLen) <= j < |perm|
      ensures Extends(prev, Remove(perm, j), Lower(v, perm[j])) <==> Remove(Append(perm, v), j) in top
    {
      RemoveAppend(perm, v, j);
      assert HasExtensions(prev, Remove(perm, j));
    }
  }

  /** The same, for the two top levels of a well-formed cache. */
  lemma CandidatesMatchLevel(cache: seq<Level>, maxPattLen: nat, perm: Perm, v: nat)
    requires WellFormed(cache) && |cache| >= 2
    requires perm in cache[|cache| - 1]
    requires Candidates(perm, maxPattLen, PrevLevel(cache)).Ok?
    ensures v in Candidates(perm, maxPattLen, PrevLevel(cache)).value <==>
              forall j :: ProbeStart(|perm|, maxPattLen) <= j < |perm| ==>
                Remove(Append(perm, v), j) in cache[|cache| - 1]
  {
    assert KeysOfLength(cache[|cache| - 1], |cache| - 1);
    CandidatesMatchChildren(cache[|cache| - 2], cache[|cache| - 1], maxPattLen, perm, v);
  }

  /**
   * Every lookup `valid_values` makes for a top-level permutation finds its
   * sub-permutation: each probed deletion of a top-level permutation is a
   * permutation of the level below.
   */
  ghost predicate SubPermsCached(cache: seq<Level>, maxPattLen: nat)
    requires |cache| >= 1
  {
    |cache| >= 2 ==>
      forall q, j :: q in cache[|cache| - 1] && ProbeStart(|q|, maxPattLen) <= j < |q| ==>
        Remove(q, j) in cache[|cache| - 2]
  }

  /** After a round, every probed deletion of a new-level permutation is in the level it was built from. */
  lemma StepCachesSubPerms(cache: seq<Level>, basis: seq<Perm>, maxPattLen: nat)
    requires WellFormed(cache) && Step(cache, basis, maxPattLen).Some?
    ensures SubPermsCached(Step(cache, basis, maxPattLen).value, maxPattLen)
  {
    var next: seq<Level> := Step(cache, basis, maxPattLen).value;
    var n := |cache| - 1;
    StepShape(cache, basis, maxPattLen);
    forall q, j | q in next[n + 1] && ProbeStart(|q|, maxPattLen) <= j < |q|
      ensures Remove(q, j) in next[n]
    {
      StepChildHasParent(cache, basis, maxPattLen, q);
      var p, v :| && p in cache[n]
                  && Candidates(p, maxPattLen, PrevLevel(cache)).Ok?
                  && v in Candidates(p, maxPattLen, PrevLevel(cache)).value
                  && q == Append(p, v);
      assert KeysOfLength(cache[n], n);
      if j == |p| {
        RemoveAppendLast(p, v);
      } else {
        CandidatesMatchLevel(cache, maxPattLen, p, v);
      }
    }
  }

  /**
   * The lookup of line 78 cannot fail: in a well-formed cache whose probed
   * sub-permutations are cached, no top-level permutation's candidates fail
   * with `MissingSubPerm`.
   */
  lemma NoMissingSubPerm(cache: seq<Level>, maxPattLen: nat, p: Perm)
    requires WellFormed(cache) && SubPermsCached(cache, maxPattLen)
    requires p in cache[|cache| - 1]
    ensures !(Candidates(p, maxPattLen, PrevLevel(cache)).Err? && Candidates(p, maxPattLen, PrevLevel(cache)).error.MissingSubPerm?)
  {
    if |cache| >= 2 {
      CandidatesFailure(p, maxPattLen, cache[|cache| - 2]);
    }
  }

  /** A failing round reports no missing sub-permutation. */
  lemma RoundNotMissingSubPerm(cache: seq<Level>, maxPattLen: nat, prev: Option<Level>, e: BuildError)
    requires WellFormed(cache) && SubPermsCached(cache, maxPattLen) && prev == PrevLevel(cache)
    requires exists p :: p in cache[|cache| - 1] && Candidates(p, maxPattLen, prev) == Err(e)
    ensures !e.MissingSubPerm?
  {
    var p :| p in cache[|cache| - 1] && Candidates(p, maxPattLen, prev) == Err(e);
    NoMissingSubPerm(cache, maxPattLen, p);
  }

  /** A successful round keeps both the cache invariant and the sub-permutation property. */
  lemma StepKeepsCache(cache: seq<Level>, basis: seq<Perm>, maxPattLen: nat)
    requires WellFormed(cache) && Step(cache, basis, maxPattLen).Some?
    ensures WellFormed(Step(cache, basis, maxPattLen).value)
    ensures SubPermsCached(Step(cache, basis, maxPattLen).value, maxPattLen)
  {
    StepPreservesWellFormed(cache, basis, maxPattLen);
    StepCachesSubPerms(cache, basis, maxPattLen);
  }

  /** A build that keeps the sub-permutation property of the cache it starts from ends with it. */
  lemma {:induction false} BuildCachesSubPerms(cache: seq<Level>, basis: seq<Perm>, maxPattLen: nat, n: nat)
    requires WellFormed(cache) && SubPermsCached(cache, maxPattLen)
    requires Build(cache, basis, maxPattLen, n).Some?
    ensures var built := Build(cache, basis, maxPattLen, n).value;
            |built| >= 1 && SubPermsCached(built, maxPattLen)
    decreases n + 1 - |cache|
  {
    BuildShape(cache, basis, maxPattLen, n);
    if n >= |cache| {
      StepPreservesWellFormed(cache, basis, maxPattLen);
      StepCachesSubPerms(cache, basis, maxPattLen);
      BuildCachesSubPerms(Step(cache, basis, maxPattLen).value, basis, maxPattLen, n);
    }
  }

  /**
   * `build_perm_class(n)` leaves max(old length, n + 1) levels, keeps the keys
   * of the levels that existed, and changes nothing when level n exists.
   */
  lemma {:induction false} BuildShape(cache: seq<Level>, basis: seq<Perm>, maxPattLen: nat, n: nat)
    requires |cache| >= 1 && Build(cache, basis, maxPattLen, n).Some?
    ensures var built := Build(cache, basis, maxPattLen, n).value;
            && |built| == (if n < |cache| then |cache| else n + 1)
            && (forall i :: 0 <= i < |cache| ==> built[i].Keys == cache[i].Keys)
            && (n < |cache| ==> built == cache)
    decreases n + 1 - |cache|
  {
    if n >= |cache| {
      var next: seq<Level> := Step(cache, basis, maxPattLen).value;
      StepShape(cache, basis, maxPattLen);
      BuildShape(next, basis, maxPattLen, n);
    }
  }

  /** A successful build keeps the cache invariant. */
  lemma {:induction false} BuildPreservesWellFormed(cache: seq<Level>, basis: seq<Perm>, maxPattLen: nat, n: nat)
    requires WellFormed(cache) && Build(cache, basis, maxPattLen, n).Some?
    ensures WellFormed(Build(cache, basis, maxPattLen, n).value)
    decreases n + 1 - |cache|
  {
    if n >= |cache| {
      StepPreservesWellFormed(cache, basis, maxPattLen);
      BuildPreservesWellFormed(Step(cache, basis, maxPattLen).value, basis, maxPattLen, n);
    }
  }

  /** Adding one parent's children to a set of parents adds exactly that parent's admitted children. */
  lemma ChildrenInsert(basis: seq<Perm>, maxPattLen: nat, prev: Option<Level>, parents: set<Perm>, p: Perm, values: seq<nat>)
    requires Candidates(p, maxPattLen, prev) == Ok(values)
    ensures Children(basis, maxPattLen, prev, parents + {p}) ==
              Children(basis, maxPattLen, prev, parents) + ChildrenOf(basis, p, values)
  {
    assert Admitted(basis, maxPattLen, prev, p) == AdmittedValues(basis, p, values);
  }

  /** `AvoidanceClass`: the basis and the cache levels. */
  class AvoidanceClass {
    const basis: seq<Perm>
    var permCache: seq<Level>

    /** The cache invariant, and every sub-permutation a lookup probes is cached. */
    ghost predicate Valid()
      reads this
    {
      && WellFormed(permCache)
      && (MaxPattLen(basis).Some? ==> SubPermsCached(permCache, MaxPattLen(basis).value))
    }

    /** `AvoidanceClass::new`: one level, holding the empty permutation with no extension data. */
    constructor (basis: seq<Perm>)
      ensures this.basis == basis
      ensures permCache == [map[[] := None]]
      ensures Valid()
    {
      this.basis := basis;
      permCache := [map[New([]) := None]];
      assert IsPerm([]);
    }

    /**
     * `build_perm_class(n)`: fails on an empty basis before changing anything;
     * otherwise grows the cache one level per round until level n exists, and
     * the result is `Build` of the old cache with M the longest pattern length.
     */
    method BuildPermClass(n: nat) returns (r: Outcome<BuildError>)
      requires Valid()
      modifies this
      ensures MaxPattLen(basis).None? ==> r == Fail(EmptyBasis) && permCache == old(permCache)
      ensures MaxPattLen(basis).Some? ==>
                (r.Pass? <==> Build(old(permCache), basis, MaxPattLen(basis).value, n).Some?)
      ensures r.Pass? ==> && MaxPattLen(basis).Some?
                          && permCache == Build(old(permCache), basis, MaxPattLen(basis).value, n).value
                          && Valid()
      ensures r.Fail? ==> !r.error.MissingSubPerm?
    {
      var maxLen := MaxPattLen(basis);
      if maxLen.None? {
        return Fail(EmptyBasis);
      }
      var maxPattLen := maxLen.value;
      while |permCache| <= n
        invariant WellFormed(permCache) && SubPermsCached(permCache, maxPattLen)
        invariant Build(permCache, basis, maxPattLen, n) == Build(old(permCache), basis, maxPattLen, n)
        decreases n + 1 - |permCache|
      {
        var grown := GrowLevel(maxPattLen);
        if grown.Fail? {
          return grown;
        }
      }
      return Pass;
    }

    /** One round of the loop of `build_perm_class`, as specified by `Step`. */
    method GrowLevel(maxPattLen: nat) returns (r: Outcome<BuildError>)
      requires WellFormed(permCache) && SubPermsCached(permCache, maxPattLen)
      modifies this
      ensures r.Pass? <==> Step(old(permCache), basis, maxPattLen).Some?
      ensures r.Pass? ==> && permCache == Step(old(permCache), basis, maxPattLen).value
                          && WellFormed(permCache) && SubPermsCached(permCache, maxPattLen)
      ensures r.Fail? ==> exists p :: p in old(permCache)[|old(permCache)| - 1] &&
                            Candidates(p, maxPattLen, PrevLevel(old(permCache))) == Err(r.error)
      ensures r.Fail? ==> !r.error.MissingSubPerm?
    {
      var curr := |permCache| - 1;
      var prev := if curr == 0 then None else Some(permCache[curr - 1]);
      ghost var cache0 := permCache;
      assert prev == PrevLevel(cache0);
      ghost var parents := ParentsAfter(basis, maxPattLen, prev, cache0[curr]);
      var perms: Level;
      r, perms := ExtendTop(maxPattLen, prev);
      if r.Fail? {
        RoundNotMissingSubPerm(cache0, maxPattLen, prev, r.error);
        return;
      }
      if curr > 0 {
        ClearExtensions(curr - 1);
      }
      permCache := permCache + [perms];
      assert permCache == Grown(cache0, parents, perms);
      StepValue(cache0, basis, maxPattLen, prev, permCache);
      StepKeepsCache(cache0, basis, maxPattLen);
    }

    /**
     * The loop over the top level in one round of `build_perm_class`: each
     * parent records its admitted candidates in place, and its admitted
     * children are collected with no extension data; the first lookup failure
     * ends it.
     */
    method ExtendTop(maxPattLen: nat, prev: Option<Level>) returns (r: Outcome<BuildError>, perms: Level)
      requires |permCache| >= 1
      modifies this
      ensures var top := old(permCache)[|old(permCache)| - 1];
              r.Pass? <==> forall p :: p in top ==> Candidates(p, maxPattLen, prev).Ok?
      ensures var top := old(permCache)[|old(permCache)| - 1];
              r.Fail? ==> exists p :: p in top && Candidates(p, maxPattLen, prev) == Err(r.error)
      ensures var top := old(permCache)[|old(permCache)| - 1];
              r.Pass? ==> && permCache == old(permCache)[|old(permCache)| - 1 := ParentsAfter(basis, maxPattLen, prev, top)]
                          && perms == NextLevel(basis, maxPattLen, prev, top)
    {
      var curr := |permCache| - 1;
      var parents;
      r, parents, perms := RecordParents(basis, maxPattLen, prev, permCache[curr]);
      permCache := permCache[curr := parents];
    }

    /** The body of `ExtendTop` on the top level `top` as a value. */
    static method RecordParents(basis: seq<Perm>, maxPattLen: nat, prev: Option<Level>, top: Level)
      returns (r: Outcome<BuildError>, parents: Level, perms: Level)
      ensures r.Pass? <==> forall p :: p in top ==> Candidates(p, maxPattLen, prev).Ok?
      ensures r.Fail? ==> exists p :: p in top && Candidates(p, maxPattLen, prev) == Err(r.error)
      ensures r.Pass? ==> parents == ParentsAfter(basis, maxPattLen, prev, top) && perms == NextLevel(basis, maxPattLen, prev, top)
    {
      parents := top;
      assert parents == PartlyRecorded(basis, maxPattLen, prev, top, {});
      perms := map[];
      assert perms == Unexplored(Children(basis, maxPattLen, prev, {}));
      var todo := top.Keys;
      ghost var done: set<Perm> := {};
      while todo != {}
        invariant todo !! done && todo + done == top.Keys
        invariant forall p :: p in done ==> Candidates(p, maxPattLen, prev).Ok?
        invariant parents == PartlyRecorded(basis, maxPattLen, prev, top, done)
        invariant perms == Unexplored(Children(basis, maxPattLen, prev, done))
        decreases todo
      {
        var perm :| perm in todo;
        var values := Extensions.ValidValues(perm, maxPattLen, prev);
        if values.Err? {
          return Fail(values.error), parents, perms;
        }
        var cached, perms' := AdmitChildren(basis, perm, values.value, parents[perm], perms);
        RecordOneParent(basis, maxPattLen, prev, top, done, perm, values.value, cached, perms');
        perms := perms';
        parents := parents[perm := cached];
        todo := todo - {perm};
        done := done + {perm};
      }
      PartlyRecordedAll(basis, maxPattLen, prev, top);
      return Pass, parents, perms;
    }

    /** Drop every extension list of level i, keeping its permutations. */
    method ClearExtensions(i: nat)
      requires i < |permCache|
      modifies this
      ensures permCache == old(permCache)[i := Clear(old(permCache)[i])]
    {
      var keys := permCache[i].Keys;
      while keys != {}
        invariant |permCache| == |old(permCache)|
        invariant forall j :: 0 <= j < |permCache| && j != i ==> permCache[j] == old(permCache)[j]
        invariant permCache[i].Keys == old(permCache)[i].Keys
        invariant keys <= permCache[i].Keys
        invariant forall p :: p in permCache[i] && p !in keys ==> permCache[i][p].None?
        decreases keys
      {
        var p :| p in keys;
        permCache := permCache[i := permCache[i][p := None]];
        keys := keys - {p};
      }
      assert permCache[i] == Clear(old(permCache)[i]);
    }

    /**
     * The inner loop of `build_perm_class` for one parent: each candidate whose
     * child passes the admission test is pushed onto the parent's list and the
     * child is inserted, with no extension data, into the new level.
     */
    static method AdmitChildren(basis: seq<Perm>, perm: Perm, values: seq<nat>, cached0: Option<seq<nat>>, perms0: Level)
      returns (cached: Option<seq<nat>>, perms: Level)
      ensures cached == Record(cached0, AdmittedValues(basis, perm, values))
      ensures perms == perms0 + Unexplored(ChildrenOf(basis, perm, values))
    {
      cached, perms := cached0, perms0;
      var j := 0;
      assert perms0 + Unexplored({}) == perms0;
      while j < |values|
        invariant j <= |values|
        invariant cached == Record(cached0, AdmittedValues(basis, perm, values[..j]))
        invariant perms == perms0 + Unexplored(ChildrenOf(basis, perm, values[..j]))
      {
        var value := values[j];
        var newPerm := Append(perm, value);
        AdmittedValuesPush(basis, perm, values, j);
        ChildrenOfPush(basis, perm, values, j);
        if Admits(basis, newPerm) {
          RecordPush(cached0, AdmittedValues(basis, perm, values[..j]), value);
          UnexploredInsert(perms0, ChildrenOf(basis, perm, values[..j]), newPerm);
          perms := perms[newPerm := None];
          match cached {
            case Some(vec) => cached := Some(vec + [value]);
            case None => cached := Some([value]);
          }
        }
        j := j + 1;
      }
      assert values[..j] == values;
    }
  }
}
