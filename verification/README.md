# Avoidance-class builder of permuta_rs, in Dafny

This project models the core of the permutation-class builder of permuta_rs:

- `AvoidanceClass` (`src/rust_core/perm_sets/avoidance.rs`) holds a basis of
  patterns and a cache, one level per length. Level i maps each admitted
  permutation of length i to the list of values it may be extended by. Each
  entry is `None` when its level is created. The round that builds level
  i + 1 records in it the values of the children admitted from it; it stays
  `None` when no child was admitted. The round after that reads these lists
  while it builds level i + 2, and at its end resets them to `None`. So only
  the level just below the top holds lists.
- `build_perm_class(n)` grows the cache one level per round until level n
  exists.
- `valid_values` finds the candidate extension values of a permutation. It
  deletes each of its last M positions, where M is the longest pattern
  length. It looks the rest up in the previous level and renumbers the cached
  values around the deleted point. It then intersects the results.
- `Perm` (`src/rust_core/perm.rs`) is the permutation value type.

Modules:

- `Perms` (`perms.dfy`): the `Perm` value type. A permutation is its sequence of
  values; `IsPerm` is the ghost bijection predicate, which `Perm::new` does not
  check. A `Perm` is a value, so nothing can change its values once it is built.
  - `append` and `remove` are called by the builder, but perm.rs defines
    neither, so their bodies are not part of this model. They are defined with the renumbering convention the
    cache relies on, and that convention is an assumption:
    - `Append(p, v)` adds one to every value >= v and puts v last;
    - `Remove(p, i)` deletes position i and subtracts one from every value
      above the deleted one.
  - `RemoveAppend` proves the rule that `valid_values` depends on. Deleting an
    earlier position of `Append(p, v)` gives `Remove(p, i)` extended by v or
    by v - 1.
- `Extensions` (`extensions.dfy`): `valid_values` as functions, and the
  method `ValidValues` with its loops, proved equal to them. In the source it is
  an associated function of `AvoidanceClass` without `self`; it reads no field,
  so here it sits next to its specification.
  - `Probe` is one deleted position.
  - `ProbeFrom` is the fold over the probed positions.
  - `Candidates` is the whole result, or the lookup failure.
  - The lemmas about them state the intersection property, the error cases,
    bounds and distinctness, and which cache entries are read.
- `Avoidance` (`avoidance.dfy`): the `AvoidanceClass` class with the `basis`
  and `permCache` fields.
  - `BuildPermClass` is proved against the ghost function `Build`. `Build` is
    repeated application of `Step`, one round of the `while` loop.
  - The methods mutate `permCache`: a parent's list is pushed onto or replaced
    in place, the level below is cleared in place, and the new level is pushed.
  - The hash map's unordered iteration is modelled by picking any key not yet
    processed.
  - `WellFormed` is the cache invariant that every round keeps. It also lets
    `CandidatesMatchLevel` show what the candidates mean: v is a candidate of
    a top-level perm exactly when every probed deletion of `Append(perm, v)`
    is in the top level.
  - The class invariant `Valid` is `WellFormed` together with
    `SubPermsCached` for M the longest pattern length: every probed deletion
    of a top-level permutation is in the level below.
- `Wrappers` (`wrappers.dfy`): `Option`, `Result`, and `Outcome`.

Each `expect` of the source that can fail is a panic. Each is modelled as a
`BuildError` result:

- an empty basis (line 27);
- a probed sub-permutation missing from the previous level (line 78);
- a sub-permutation with no cached extensions (line 80);
- an empty probe range, when M = 0 (a basis of empty patterns) (line 110).

The fifth, `expect("non-empty cache")` at line 76, cannot fire. It is reached
only after the early return of lines 63-65 has handled the missing previous
level, so it has no counterpart in the model.

The builder never reaches the second of these. `SubPermsCached` says that
every probed deletion of a top-level permutation is in the level below.
`StepCachesSubPerms` proves that every round establishes it, and
`NoMissingSubPerm` proves that under it no lookup fails. `GrowLevel` and
`BuildPermClass` therefore promise never to fail with `MissingSubPerm`. The
third is not ruled out: a parent that admitted no child keeps `None`, and
whether such a parent can be probed from the next level depends on the
admission test of line 43.

### What the code does at two points

- **Admission test.** Line 43 of `src/rust_core/perm_sets/avoidance.rs`
  admits a child when some basis pattern differs from it
  (`any(p != new_perm)`). That is not the same as "the child equals no
  pattern".
  - `Admits` models the line as written.
  - `AdmitsSinglePattern`: for a one-pattern basis it means "the child
    differs from the pattern".
  - `AdmitsLongChild`: a child longer than every pattern is always admitted.
  - `AdmitsAllWhenPatternsDiffer`: once the basis holds two different
    patterns, every child is admitted.
- **`[0]` result.** `valid_values` returns `[0]` whenever there is no previous
  level. That happens only in the first round (`FirstRound`). With a previous
  level the intersection may also happen to be `[0]`.

## Model

| member | source | states |
|---|---|---|
| Perms.NewIsUnchecked | src/rust_core/perm.rs:11-30 | `Perm::new` keeps the given values in their order and does not check that they form a bijection; `len` is their number and `get_perm` returns the permutation unchanged |
| Perms.Append | src/rust_core/perm_sets/avoidance.rs:41 | a child is one longer than its parent, ends with the appended value, and no earlier position holds that value |
| Perms.Remove | src/rust_core/perm_sets/avoidance.rs:74 | deleting a position gives a permutation one shorter |
| Perms.AppendIsPerm | src/rust_core/perm_sets/avoidance.rs:41 | appending a value in [0, n] to a permutation of length n gives a permutation |
| Perms.AppendKeepsOrder | src/rust_core/perm_sets/avoidance.rs:41 | appending keeps the relative order of the parent's positions |
| Perms.RemoveIsPerm | src/rust_core/perm_sets/avoidance.rs:74 | deleting any position of a permutation gives a permutation |
| Perms.RemoveKeepsOrder | src/rust_core/perm_sets/avoidance.rs:74 | deleting a position keeps the relative order of all other positions |
| Perms.RemoveAppendLast | src/rust_core/perm_sets/avoidance.rs:41 | deleting the appended last point gives back the parent |
| Perms.AppendRemoveLast | src/rust_core/perm_sets/avoidance.rs:74 | appending the deleted last value to the rest gives back the permutation |
| Perms.AppendInjective | src/rust_core/perm_sets/avoidance.rs:41-44 | different (parent, value) pairs give different children, so each child is inserted for one parent |
| Perms.RemoveAppend | src/rust_core/perm_sets/avoidance.rs:72-90 | deleting an earlier position i of Append(p, v) equals appending to Remove(p, i) the value v (v <= p[i]) or v - 1 (v > p[i]), the renumbering rule of the probes |
| Extensions.ProbeStart | src/rust_core/perm_sets/avoidance.rs:69-70 | the saturating start leaves at most M probed positions, exactly M unless it saturates at 0 |
| Extensions.RenumberMembers | src/rust_core/perm_sets/avoidance.rs:83-90 | a cached value k yields exactly the values x whose lowered value is k (k if k <= val, k + 1 if k >= val), none twice |
| Extensions.PotentialMembers | src/rust_core/perm_sets/avoidance.rs:82-90 | a potential value is exactly one whose lowered value is among the cached extensions; distinct cached values give distinct potential values |
| Extensions.IntersectMembers | src/rust_core/perm_sets/avoidance.rs:94-107 | the intersection holds exactly the values in both lists, without repeats when the potential values have none |
| Extensions.ProbeMembers | src/rust_core/perm_sets/avoidance.rs:73-90 | a probe's potential values are those whose lowered value the sub-permutation without that position records |
| Extensions.CandidatesFailure | src/rust_core/perm_sets/avoidance.rs:69-110 | with a previous level, `valid_values` fails exactly when the probe range is empty or some probed sub-permutation is missing or has no cached extensions; the empty-range error is the last `expect` and the lookup errors name a probed sub-permutation of the right kind |
| Extensions.CandidatesMembers | src/rust_core/perm_sets/avoidance.rs:72-107 | a value is a candidate exactly when, for every probed position j, its lowered value is a cached extension of the sub-permutation without j |
| Extensions.CandidatesBounded | src/rust_core/perm_sets/avoidance.rs:82-107 | if the probed cached values are distinct and below n, the candidates are distinct and at most n |
| Extensions.CandidatesFrame | src/rust_core/perm_sets/avoidance.rs:72-80 | `valid_values` reads the previous level only at the probed sub-permutations |
| Avoidance.MaxPattLen | src/rust_core/perm_sets/avoidance.rs:23-28 | no maximum exactly for an empty basis; otherwise the length of some pattern and no shorter than any |
| Avoidance.AdmitsSinglePattern | src/rust_core/perm_sets/avoidance.rs:43 | with one pattern, a child is admitted exactly when it differs from the pattern |
| Avoidance.AdmitsAllWhenPatternsDiffer | src/rust_core/perm_sets/avoidance.rs:43 | with two different patterns in the basis every child is admitted |
| Avoidance.AdmitsLongChild | src/rust_core/perm_sets/avoidance.rs:43 | a child longer than every pattern is admitted |
| Avoidance.AdmittedValuesMembers | src/rust_core/perm_sets/avoidance.rs:40-49 | a parent records exactly the candidates whose children are admitted, in candidate order, each once when the candidates are distinct |
| Avoidance.RecordPush | src/rust_core/perm_sets/avoidance.rs:45-48 | recording one more value pushes it onto the list, or replaces `None` by a one-value list |
| Avoidance.Step | src/rust_core/perm_sets/avoidance.rs:30-58 | a successful round adds exactly one level |
| Avoidance.StepShape | src/rust_core/perm_sets/avoidance.rs:30-58 | after a round every top-level parent had candidates; every old level keeps its keys; the level below the top is cleared to `None`; the top holds the recorded lists; the new level has no extension data |
| Avoidance.StepAdmission | src/rust_core/perm_sets/avoidance.rs:40-49 | Append(p, v) enters the new level exactly when v is a candidate of p and the child passes the admission test; p then records its admitted values, or stays `None` when it admitted none |
| Avoidance.StepChildHasParent | src/rust_core/perm_sets/avoidance.rs:38-50 | every permutation of the new level is an admitted child of a top-level permutation |
| Avoidance.ParentsRecordChildren | src/rust_core/perm_sets/avoidance.rs:40-49 | after a round a parent records w exactly when Append(parent, w) is in the new level |
| Avoidance.StepCandidatesBounded | src/rust_core/perm_sets/avoidance.rs:39 | in a well-formed cache the candidates of a top-level permutation of length n are distinct and in [0, n] |
| Avoidance.StepPreservesWellFormed | src/rust_core/perm_sets/avoidance.rs:30-58 | every round keeps the cache invariant: level i holds permutations of length i, recorded lists are bounded and distinct, and only the level below the top holds extension data, listing exactly its children in the top |
| Avoidance.FirstRound | src/rust_core/perm_sets/avoidance.rs:62-65 | no previous level occurs only in the first round, whose top level holds just the empty permutation |
| Avoidance.CandidatesMatchChildren | src/rust_core/perm_sets/avoidance.rs:72-90 | when the previous level records exactly the children in the top level, v is a candidate exactly when every probed deletion of Append(perm, v) is in the top level |
| Avoidance.CandidatesMatchLevel | src/rust_core/perm_sets/avoidance.rs:33-39 | the same for the two top levels of a well-formed cache |
| Avoidance.StepCachesSubPerms | src/rust_core/perm_sets/avoidance.rs:38-57 | after a round, every probed deletion of a new-level permutation is a permutation of the level it was built from: the deletion of the last point is its parent, and the others are present because the parent's candidates are intersected over them |
| Avoidance.NoMissingSubPerm | src/rust_core/perm_sets/avoidance.rs:74-78 | in a well-formed cache whose probed deletions are cached, `valid_values` never fails with "Permutation to be in cache" for a top-level permutation |
| Avoidance.RoundNotMissingSubPerm | src/rust_core/perm_sets/avoidance.rs:38-39 | the error a failing round reports is never a missing sub-permutation |
| Avoidance.BuildCachesSubPerms | src/rust_core/perm_sets/avoidance.rs:30-58 | a successful build keeps every probed deletion of the top level cached in the level below |
| Avoidance.BuildShape | src/rust_core/perm_sets/avoidance.rs:30-58 | `build_perm_class(n)` leaves max(old length, n + 1) levels, keeps the keys of existing levels, and changes nothing when level n exists |
| Avoidance.BuildPreservesWellFormed | src/rust_core/perm_sets/avoidance.rs:30-58 | a successful build keeps the cache invariant |
| Avoidance.ChildrenInsert | src/rust_core/perm_sets/avoidance.rs:38-50 | processing one more parent adds exactly that parent's admitted children to the new level |
| Avoidance.AvoidanceClass.constructor | src/rust_core/perm_sets/avoidance.rs:14-20 | a new class keeps its basis and has one level holding only the empty permutation with no extension data; the invariant holds |
| Avoidance.AvoidanceClass.BuildPermClass | src/rust_core/perm_sets/avoidance.rs:22-59 | fails on an empty basis without changing the cache; otherwise succeeds exactly when `Build` with M the longest pattern length does, leaving its cache and keeping the invariant (which includes that probed deletions are cached); a failure is never a missing sub-permutation |
| Avoidance.AvoidanceClass.GrowLevel | src/rust_core/perm_sets/avoidance.rs:30-58 | one round succeeds exactly when `Step` does and leaves its cache with the invariant and the cached probed deletions kept; a failure is the error of some top-level parent, and never a missing sub-permutation |
| Avoidance.AvoidanceClass.ExtendTop | src/rust_core/perm_sets/avoidance.rs:32-51 | the loop over the top level succeeds exactly when every parent has candidates, records each parent's admitted values in place and returns the new level |
| Avoidance.AvoidanceClass.RecordParents | src/rust_core/perm_sets/avoidance.rs:38-51 | the same on the top level as a value: recorded parents as in `Step`, children with no extension data, or the error of a failing parent |
| Avoidance.AvoidanceClass.ClearExtensions | src/rust_core/perm_sets/avoidance.rs:53-55 | the level's entries all become `None`, its keys and every other level unchanged |
| Extensions.ValidValues | src/rust_core/perm_sets/avoidance.rs:61-111 | returns `[0]` without a previous level, otherwise the candidates of `Candidates` (whose lemmas above state the intersection property) or the lookup failure |
| Extensions.ProbePosition | src/rust_core/perm_sets/avoidance.rs:73-90 | one probe: the potential values of the sub-permutation without position i, or why its lookup fails |
| Extensions.PotentialValues | src/rust_core/perm_sets/avoidance.rs:82-90 | the renumbering loop computes `Potential` (see `PotentialMembers`) |
| Extensions.IntersectValues | src/rust_core/perm_sets/avoidance.rs:94-107 | the intersection loop computes `Intersect` (see `IntersectMembers`) |
| Avoidance.AvoidanceClass.AdmitChildren | src/rust_core/perm_sets/avoidance.rs:40-50 | the inner loop records exactly the admitted values in the parent's list and inserts exactly the admitted children, with no extension data, into the new level |

## Left out

- `Perm::append` and `Perm::remove`: their bodies are not part of this model. The renumbering convention above is assumed.
- `occurrences_in` and `contains` are `todo!()` in `src/rust_core/perm.rs`, and `pattern_details` is not part of this model. None of them is modelled.
- `src/lib.rs` is binding glue to the host language with no logic, and `src/rust_core/patt.rs` holds trait signatures only. The generic basis type `P: Patt` is modelled as `Perm`, the only implementation. Only its `len` and `get_perm` are used.
- Hash-map hashing and iteration order: a round processes the top level's keys in an arbitrary order. When several parents would fail, the error reported depends on that order, so `Step` only says that the round fails.
- Avoidance.AvoidanceClass.GrowLevel: after a failure (a panic in the source) it promises nothing about the cache. The model leaves the top level partly recorded and does not push the new level, as unwinding from the panic would.
- Avoidance.AvoidanceClass.BuildPermClass: likewise states nothing about the cache after a failing round.
- Avoidance.AvoidanceClass.RecordParents: computes the top level as a value and `ExtendTop` stores it back. In the source each parent's `Option<Vec>` is mutated in place through the iterator. The two agree because the levels are values with no aliasing.
- `usize` arithmetic is modelled with unbounded naturals. `k + 1` cannot overflow for values bounded by the permutation length.
- `Vec::with_capacity` only reserves memory and is not modelled.
- Concurrency: the builder is a plain sequential loop, so there is none to model.
