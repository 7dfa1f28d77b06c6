/** The Levenshtein distance between two byte strings, as the textbook recursion
    on their last bytes, and the facts about it that the three estimators rely
    on: symmetry, identity, the length bounds and subadditivity over
    concatenation. */
module Levenshtein {
  import opened Buffers

  function Min3(x: nat, y: nat, z: nat): (m: nat)
    ensures m <= x && m <= y && m <= z
    ensures m == x || m == y || m == z
  {
    if x <= y && x <= z then x else if y <= z then y else z
  }

  function Max(x: nat, y: nat): nat { if x < y then y else x }

  function Min(x: nat, y: nat): nat { if x < y then x else y }

  /** |x - y| on naturals. */
  function Gap(x: nat, y: nat): nat { if x < y then y - x else x - y }

  /** Cost of turning byte `x` into byte `y`. */
  function Cost(x: byte, y: byte): nat { if x == y then 0 else 1 }

  /** Minimum number of single-byte insertions, deletions and substitutions that
      turn `a` into `b`. The recursion removes the last byte of `a` (deletion),
      of `b` (insertion) or of both (substitution or match). */
  function Lev(a: seq<byte>, b: seq<byte>): nat
    decreases |a| + |b|
  {
    if |a| == 0 then |b|
    else if |b| == 0 then |a|
    else
      Min3(Lev(a[..|a| - 1], b) + 1,
           Lev(a, b[..|b| - 1]) + 1,
           Lev(a[..|a| - 1], b[..|b| - 1]) + Cost(a[|a| - 1], b[|b| - 1]))
  }

  /** The recurrence with the last bytes written explicitly: this is the cell
      update of the dynamic programme. */
  lemma LevSnoc(a: seq<byte>, b: seq<byte>, x: byte, y: byte)
    ensures Lev(a + [x], b + [y])
         == Min3(Lev(a, b + [y]) + 1, Lev(a + [x], b) + 1, Lev(a, b) + Cost(x, y))
  {
    assert (a + [x])[..|a|] == a;
    assert (b + [y])[..|b|] == b;
  }

  /** Dropping the last byte of `a` costs at most one edit. */
  lemma LevDropFirst(a: seq<byte>, b: seq<byte>)
    requires |a| > 0
    ensures Lev(a, b) <= Lev(a[..|a| - 1], b) + 1
  {
  }

  /** Dropping the last byte of `b` costs at most one edit. */
  lemma LevDropSecond(a: seq<byte>, b: seq<byte>)
    requires |b| > 0
    ensures Lev(a, b) <= Lev(a, b[..|b| - 1]) + 1
  {
  }

  /** The distance does not depend on the order of its arguments. */
  lemma {:induction false} LevSymmetric(a: seq<byte>, b: seq<byte>)
    ensures Lev(a, b) == Lev(b, a)
    decreases |a| + |b|
  {
    if |a| > 0 && |b| > 0 {
      LevSymmetric(a[..|a| - 1], b);
      LevSymmetric(a, b[..|b| - 1]);
      LevSymmetric(a[..|a| - 1], b[..|b| - 1]);
    }
  }

  /** The distance is zero exactly between equal strings. */
  lemma {:induction false} LevZeroIffEqual(a: seq<byte>, b: seq<byte>)
    ensures Lev(a, b) == 0 <==> a == b
    decreases |a| + |b|
  {
    if |a| > 0 && |b| > 0 {
      var a', b' := a[..|a| - 1], b[..|b| - 1];
      LevZeroIffEqual(a', b');
      if a == b {
        assert a' == b';
      }
      if Lev(a, b) == 0 {
        assert Lev(a', b') == 0 && a[|a| - 1] == b[|b| - 1];
        assert a == a' + [a[|a| - 1]] && b == b' + [b[|b| - 1]];
      }
    }
  }

  /** No string is further than the longer length from another: substitute
      along the shorter one and insert or delete the rest. */
  lemma {:induction false} LevAtMostLonger(a: seq<byte>, b: seq<byte>)
    ensures Lev(a, b) <= Max(|a|, |b|)
    decreases |a| + |b|
  {
    if |a| > 0 && |b| > 0 {
      LevAtMostLonger(a[..|a| - 1], b[..|b| - 1]);
    }
  }

  /** Every edit changes the length by at most one. */
  lemma {:induction false} LevAtLeastLengthGap(a: seq<byte>, b: seq<byte>)
    ensures Gap(|a|, |b|) <= Lev(a, b)
    decreases |a| + |b|
  {
    if |a| > 0 && |b| > 0 {
      LevAtLeastLengthGap(a[..|a| - 1], b);
      LevAtLeastLengthGap(a, b[..|b| - 1]);
      LevAtLeastLengthGap(a[..|a| - 1], b[..|b| - 1]);
    }
  }

  lemma DropLastOfConcat(s1: seq<byte>, s2: seq<byte>)
    requires |s2| > 0
    ensures (s1 + s2)[..|s1 + s2| - 1] == s1 + s2[..|s2| - 1]
    ensures (s1 + s2)[|s1 + s2| - 1] == s2[|s2| - 1]
  {
  }

  /** Editing two pieces separately and concatenating the results is one way
      of editing the concatenation, so it is never better than the optimum. */
  lemma {:induction false} LevSubadditive(a1: seq<byte>, a2: seq<byte>, b1: seq<byte>, b2: seq<byte>)
    ensures Lev(a1 + a2, b1 + b2) <= Lev(a1, b1) + Lev(a2, b2)
    decreases |a2| + |b2|
  {
    var a, b := a1 + a2, b1 + b2;
    if |a2| == 0 && |b2| == 0 {
      assert a == a1 && b == b1;
    } else if |a2| == 0 {
      var b2' := b2[..|b2| - 1];
      LevSubadditive(a1, a2, b1, b2');
      DropLastOfConcat(b1, b2);
      LevDropSecond(a, b);
    } else if |b2| == 0 {
      var a2' := a2[..|a2| - 1];
      LevSubadditive(a1, a2', b1, b2);
      DropLastOfConcat(a1, a2);
      LevDropFirst(a, b);
    } else {
      var a2', b2' := a2[..|a2| - 1], b2[..|b2| - 1];
      DropLastOfConcat(a1, a2);
      DropLastOfConcat(b1, b2);
      if Lev(a2, b2) == Lev(a2', b2) + 1 {
        LevSubadditive(a1, a2', b1, b2);
      } else if Lev(a2, b2) == Lev(a2, b2') + 1 {
        LevSubadditive(a1, a2, b1, b2');
      } else {
        LevSubadditive(a1, a2', b1, b2');
      }
    }
  }

  /** Two strings of equal length that differ in exactly one position are at
      distance one. */
  lemma SingleSubstitution(a: seq<byte>, b: seq<byte>, k: nat)
    requires |a| == |b| && k < |a| && a[k] != b[k]
    requires forall i :: 0 <= i < |a| && i != k ==> a[i] == b[i]
    ensures Lev(a, b) == 1
  {
    var p, q := a[..k], a[k + 1..];
    assert a == p + [a[k]] + q;
    assert b == p + [b[k]] + q;
    LevSubadditive(p + [a[k]], q, p + [b[k]], q);
    LevSubadditive(p, [a[k]], p, [b[k]]);
    LevZeroIffEqual(p, p);
    LevZeroIffEqual(q, q);
    LevZeroIffEqual(a, b);
    assert Lev([a[k]], [b[k]]) == 1 by {
      assert [a[k]][..0] == [] && [b[k]][..0] == [];
    }
  }
}
