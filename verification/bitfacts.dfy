/**
  Facts about `&`, `|` and and-not on 64-bit masks, stated on the bare
  operators and one direction at a time, so that the solver decides each
  on the bits alone. The module declares no functions; `Bitmask` restates
  the facts for `Has`, `Add` and `Remove`.
 */
module BitFacts {

  lemma NoMissingBitFrom(p: bv64, perm: bv64)
    requires p & perm == perm
    ensures perm & !p == 0
  {
  }

  lemma NoMissingBitTo(p: bv64, perm: bv64)
    requires perm & !p == 0
    ensures p & perm == perm
  {
  }

  lemma NoneAndSelf(p: bv64)
    ensures p & 0 == 0 && p & p == p
  {
  }

  lemma Transitive(p: bv64, q: bv64, r: bv64)
    requires p & q == q && q & r == r
    ensures p & r == r
  {
  }

  lemma OrContainsBoth(p: bv64, q: bv64)
    ensures (p | q) & p == p && (p | q) & q == q
  {
  }

  lemma OrBelow(p: bv64, q: bv64, r: bv64)
    requires r & p == p && r & q == q
    ensures r & (p | q) == p | q
  {
  }

  lemma OrAboveLeft(p: bv64, q: bv64, r: bv64)
    requires r & (p | q) == p | q
    ensures r & p == p
  {
  }

  lemma OrAboveRight(p: bv64, q: bv64, r: bv64)
    requires r & (p | q) == p | q
    ensures r & q == q
  {
  }

  lemma OrCommutes(p: bv64, q: bv64)
    ensures p | q == q | p
  {
  }

  lemma OrIdempotent(p: bv64, q: bv64)
    ensures (p | q) | q == p | q
  {
  }

  lemma AndNotClears(p: bv64, perm: bv64)
    ensures (p & !perm) & perm == 0
  {
  }

  lemma AndNotKeeps(p: bv64, perm: bv64)
    ensures (p & !perm) & !perm == p & !perm
  {
  }

  lemma AndNotThenOr(p: bv64, perm: bv64)
    requires p & perm == perm
    ensures (p & !perm) | perm == p
  {
  }

  lemma OrKeepsBit(p: bv64, q: bv64, b: bv64)
    requires p & b == b || q & b == b
    ensures (p | q) & b == b
  {
  }

  lemma OrSplitsBit(p: bv64, q: bv64, b: bv64)
    requires b & (b - 1) == 0
    requires (p | q) & b == b
    ensures p & b == b || q & b == b
  {
    SingleBitDichotomy(p, b);
    SingleBitDichotomy(q, b);
    AndDistributesOverOr(p, q, b);
  }

  /** A mask holds a single bit entirely or not at all. */
  lemma SingleBitDichotomy(p: bv64, b: bv64)
    requires b & (b - 1) == 0
    ensures p & b == b || p & b == 0
  {
  }

  lemma AndDistributesOverOr(p: bv64, q: bv64, b: bv64)
    ensures (p | q) & b == (p & b) | (q & b)
  {
  }

  lemma AndNotKeepsBit(p: bv64, q: bv64, b: bv64)
    requires b != 0 && b & (b - 1) == 0
    requires p & b == b && q & b != b
    ensures (p & !q) & b == b
  {
  }

  lemma AndNotDropsBit(p: bv64, q: bv64, b: bv64)
    requires b != 0
    requires (p & !q) & b == b
    ensures p & b == b && q & b != b
  {
  }

  lemma AndSplits(p: bv64, m: bv64, b: bv64)
    requires (p & m) & b == b
    ensures p & b == b && m & b == b
  {
  }

  lemma AndJoins(p: bv64, m: bv64, b: bv64)
    requires p & b == b && m & b == b
    ensures (p & m) & b == b
  {
  }

  /** A mask within the low five bits is decided by those five bits. */
  lemma LowFiveDecide(p: bv64, perm: bv64)
    requires perm & !0x1f == 0
    requires perm & 0x01 == 0x01 ==> p & 0x01 == 0x01
    requires perm & 0x02 == 0x02 ==> p & 0x02 == 0x02
    requires perm & 0x04 == 0x04 ==> p & 0x04 == 0x04
    requires perm & 0x08 == 0x08 ==> p & 0x08 == 0x08
    requires perm & 0x10 == 0x10 ==> p & 0x10 == 0x10
    ensures p & perm == perm
  {
  }
}
