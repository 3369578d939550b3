/**
 * The permutation value type of src/rust_core/perm.rs.
 *
 * A `Perm` is its sequence of values. perm.rs defines neither `append` nor
 * `remove`; they are defined here with the renumbering convention
 * that the avoidance cache relies on (an assumption of this model):
 *   - Append(p, v) adds one to every value >= v and then puts v last;
 *   - Remove(p, i) deletes position i and subtracts one from every value
 *     greater than the deleted one.
 */
module Perms {

  /** A permutation, as the sequence of its values (the `val` slice of `Perm`). */
  type Perm = seq<nat>

  /** No value occurs twice. */
  ghost predicate Distinct(s: seq<nat>) {
    forall i, j :: 0 <= i < j < |s| ==> s[i] != s[j]
  }

  /** `p` is a bijection on [0, |p|). */
  ghost predicate IsPerm(p: seq<nat>) {
    Distinct(p) && forall i :: 0 <= i < |p| ==> p[i] < |p|
  }

  /** `Perm::new`: the values, in the order given, unchecked. */
  function New(values: seq<nat>): Perm {
    values
  }

  /** `Patt::len` on a `Perm`. */
  function Len(p: Perm): nat {
    |p|
  }

  /** `Patt::get_perm` on a `Perm`. */
  function GetPerm(p: Perm): Perm {
    p
  }

  /** A value as renumbered when `v` is inserted below it. */
  function Bump(x: nat, v: nat): nat {
    if x >= v then x + 1 else x
  }

  /** A value as renumbered when the value `d` is deleted. */
  function Drop(x: nat, d: nat): nat {
    if x > d then x - 1 else x
  }

  /** The value that `v`, appended after a point of value `val`, has once that point is deleted. */
  function Lower(v: nat, val: nat): nat {
    if v <= val then v else v - 1
  }

  /** Extend `p` by the value `v`, renumbering the values >= v upwards. */
  function Append(p: Perm, v: nat): (r: Perm)
    ensures Len(r) == Len(p) + 1 && r[Len(p)] == v
    ensures forall i :: 0 <= i < |p| ==> r[i] != v
  {
    seq(|p|, i requires 0 <= i < |p| => Bump(p[i], v) as nat) + [v]
  }

  /** Delete position `i` of `p`, renumbering the values above it downwards. */
  function Remove(p: Perm, i: nat): (r: Perm)
    requires i < |p|
    ensures Len(r) == Len(p) - 1
  {
    var rest := p[..i] + p[i + 1..];
    seq(|rest|, j requires 0 <= j < |rest| => Drop(rest[j], p[i]) as nat)
  }

  lemma NewIsUnchecked(values: seq<nat>)
    ensures Len(New(values)) == |values|
    ensures forall i :: 0 <= i < |values| ==> New(values)[i] == values[i]
    ensures GetPerm(New(values)) == New(values)
    ensures !IsPerm(New([0, 0])) && !IsPerm(New([1]))
  {
    assert New([0, 0])[0] == New([0, 0])[1];
    assert New([1])[0] == 1;
  }

  lemma DistinctConcat(a: seq<nat>, b: seq<nat>)
    ensures Distinct(a) && Distinct(b) && (forall x :: x in a ==> x !in b) ==> Distinct(a + b)
  {
    if Distinct(a) && Distinct(b) && (forall x :: x in a ==> x !in b) {
      DistinctConcatDisjoint(a, b);
    }
  }

  lemma DistinctConcatDisjoint(a: seq<nat>, b: seq<nat>)
    requires Distinct(a) && Distinct(b)
    requires forall x :: x in a ==> x !in b
    ensures Distinct(a + b)
  {
    forall i, j | 0 <= i < j < |a + b| ensures (a + b)[i] != (a + b)[j] {
      if j < |a| {
        assert (a + b)[i] == a[i] && (a + b)[j] == a[j];
      } else if i >= |a| {
        assert (a + b)[i] == b[i - |a|] && (a + b)[j] == b[j - |a|];
      } else {
        assert (a + b)[i] == a[i] && (a + b)[j] == b[j - |a|];
        assert a[i] in a && b[j - |a|] in b;
      }
    }
  }

  /** Appending a value in [0, |p|] to a permutation gives a permutation one longer. */
  lemma AppendIsPerm(p: Perm, v: nat)
    requires IsPerm(p) && v <= |p|
    ensures IsPerm(Append(p, v))
  {
    var r := Append(p, v);
    forall i, j | 0 <= i < j < |r| ensures r[i] != r[j] {
      if j < |p| {
        assert p[i] != p[j];
      }
    }
  }

  /** Appending keeps the relative order of the existing positions. */
  lemma AppendKeepsOrder(p: Perm, v: nat, i: nat, j: nat)
    requires i < |p| && j < |p|
    ensures Append(p, v)[i] < Append(p, v)[j] <==> p[i] < p[j]
  {
  }

  /** Deleting any position of a permutation gives a permutation one shorter. */
  lemma RemoveIsPerm(p: Perm, i: nat)
    requires IsPerm(p) && i < |p|
    ensures IsPerm(Remove(p, i))
  {
    var r := Remove(p, i);
    forall j | 0 <= j < |r| ensures r[j] < |r| {
      var k := if j < i then j else j + 1;
      assert p[k] != p[i];
    }
    forall j, l | 0 <= j < l < |r| ensures r[j] != r[l] {
      var kj := if j < i then j else j + 1;
      var kl := if l < i then l else l + 1;
      assert p[kj] != p[i] && p[kl] != p[i] && p[kj] != p[kl];
    }
  }

  /** Deleting a position keeps the relative order of all other positions. */
  lemma RemoveKeepsOrder(p: Perm, i: nat, j: nat, l: nat)
    requires IsPerm(p) && i < |p| && j < |p| - 1 && l < |p| - 1
    ensures var kj := if j < i then j else j + 1;
            var kl := if l < i then l else l + 1;
            Remove(p, i)[j] < Remove(p, i)[l] <==> p[kj] < p[kl]
  {
    var kj := if j < i then j else j + 1;
    var kl := if l < i then l else l + 1;
    assert p[kj] != p[i] && p[kl] != p[i];
  }

  /** Deleting the value just appended gives back the original permutation. */
  lemma RemoveAppendLast(p: Perm, v: nat)
    ensures Remove(Append(p, v), |p|) == p
  {
    var r := Remove(Append(p, v), |p|);
    assert |r| == |p|;
    forall j | 0 <= j < |p| ensures r[j] == p[j] {
    }
  }

  /** Appending the deleted last value to the rest gives back the permutation. */
  lemma AppendRemoveLast(p: Perm)
    requires IsPerm(p) && |p| > 0
    ensures Append(Remove(p, |p| - 1), p[|p| - 1]) == p
  {
    var r := Append(Remove(p, |p| - 1), p[|p| - 1]);
    assert |r| == |p|;
    forall j | 0 <= j < |p| ensures r[j] == p[j] {
      if j < |p| - 1 {
        assert p[j] != p[|p| - 1];
      }
    }
  }

  /** A permutation and the value appended to it are determined by the result. */
  lemma AppendInjective(p: Perm, v: nat, q: Perm, w: nat)
    requires Append(p, v) == Append(q, w)
    ensures p == q && v == w
  {
    RemoveAppendLast(p, v);
    RemoveAppendLast(q, w);
  }

  /**
   * The renumbering rule of the cache: deleting an earlier position i of
   * Append(p, v) is the same as appending to Remove(p, i) the value
   * Lower(v, p[i]) (v itself when v <= p[i], v - 1 otherwise).
   */
  lemma RemoveAppend(p: Perm, v: nat, i: nat)
    requires IsPerm(p) && i < |p|
    ensures Remove(Append(p, v), i) == Append(Remove(p, i), Lower(v, p[i]))
  {
    var lhs := Remove(Append(p, v), i);
    var rhs := Append(Remove(p, i), Lower(v, p[i]));
    assert |lhs| == |rhs|;
    forall j | 0 <= j < |lhs| ensures lhs[j] == rhs[j] {
      if j < |p| - 1 {
        var k := if j < i then j else j + 1;
        assert p[k] != p[i];
      }
    }
  }
}
