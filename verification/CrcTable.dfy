/**
 Tables of cyclic redundancy checks, sixteen entries to a row: every entry is
 the sum of the first one of its row and of one of the first row.
 */
module CrcTable {
  type Table = seq<seq<bv32>>

  /** The sum of two polynomials. */
  function Sum(x: bv32, y: bv32): bv32 {
    x ^ y
  }

  ghost predicate LinearRow(r: seq<bv32>, base: seq<bv32>) {
    |r| == 16 && |base| == 16 && forall j :: 0 <= j < 16 ==> r[j] == r[0] ^ base[j]
  }

  ghost predicate Linear(t: Table) {
    |t| == 16 && forall h :: 0 <= h < 16 ==> LinearRow(t[h], t[0])
  }

  ghost predicate Rows(t: Table) {
    |t| == 16 && forall h :: 0 <= h < 16 ==> |t[h]| == 16
  }

  function Entry(t: Table, i: bv8): bv32
    requires Rows(t)
  {
    t[(i >> 4) as int][(i & 15) as int]
  }

  lemma EntrySum(t: Table, i: bv8)
    requires Linear(t)
    ensures Rows(t) && |t[0]| == 16 && |t[(i >> 4) as int]| == 16
    ensures Entry(t, i) == Sum(t[(i >> 4) as int][0], t[0][(i & 15) as int])
  {
  }

  // The laws of sums, first of the operator, then of Sum.

  lemma BothXor(a: bv32, b: bv32, p: bv32, u: bv32, v: bv32, w: bv32, s: bv32)
    requires u == a ^ p && v == b ^ p && w == a ^ b && s == u ^ v
    ensures s == w
  {
  }

  lemma LeftXor(a: bv32, b: bv32, p: bv32, u: bv32, v: bv32, w: bv32, s: bv32)
    requires u == a ^ p && v == u ^ b && w == a ^ b && s == w ^ p
    ensures v == s
  {
  }

  lemma RightXor(a: bv32, b: bv32, p: bv32, u: bv32, v: bv32, w: bv32, s: bv32)
    requires u == b ^ p && v == a ^ u && w == a ^ b && s == w ^ p
    ensures v == s
  {
  }

  lemma IsSum(a: bv32, b: bv32)
    ensures Sum(a, b) == a ^ b
  {
  }

  lemma BothSum(a: bv32, b: bv32, p: bv32)
    ensures Sum(Sum(a, p), Sum(b, p)) == Sum(a, b)
  {
    hide Sum;
    IsSum(a, p);
    IsSum(b, p);
    IsSum(a, b);
    IsSum(Sum(a, p), Sum(b, p));
    BothXor(a, b, p, Sum(a, p), Sum(b, p), Sum(a, b), Sum(Sum(a, p), Sum(b, p)));
  }

  lemma LeftSum(a: bv32, b: bv32, p: bv32)
    ensures Sum(Sum(a, p), b) == Sum(Sum(a, b), p)
  {
    hide Sum;
    IsSum(a, p);
    IsSum(Sum(a, p), b);
    IsSum(a, b);
    IsSum(Sum(a, b), p);
    LeftXor(a, b, p, Sum(a, p), Sum(Sum(a, p), b), Sum(a, b), Sum(Sum(a, b), p));
  }

  lemma RightSum(a: bv32, b: bv32, p: bv32)
    ensures Sum(a, Sum(b, p)) == Sum(Sum(a, b), p)
  {
    hide Sum;
    IsSum(b, p);
    IsSum(a, Sum(b, p));
    IsSum(a, b);
    IsSum(Sum(a, b), p);
    RightXor(a, b, p, Sum(b, p), Sum(a, Sum(b, p)), Sum(a, b), Sum(Sum(a, b), p));
  }

  lemma NoSum(a: bv32)
    ensures Sum(a, 0) == a
  {
  }

  function Flip(x: bv32): bv32 {
    x ^ 0xffffffff
  }

  lemma FlipTwice(x: bv32)
    ensures Flip(Flip(x)) == x
  {
  }
}
