/**
  The bit algebra under the permission mask (pkg/acl/permissions.go): a
  mask is Go's 64-bit `int`, written here as a `bv64`, and `Has`, `Add` and
  `Remove` are `&`-test, `|` and and-not `&^`. Each lemma here rests on
  the operator facts of `BitFacts`.
 */
module Bitmask {
  import BitFacts

  type Permission = bv64

  /** `p.Has(perm)`: every bit of `perm` is set in `p`. */
  predicate Has(p: Permission, perm: Permission) {
    p & perm == perm
  }

  /** `p.Add(perm)`. */
  function Add(p: Permission, perm: Permission): Permission {
    p | perm
  }

  /** `p.Remove(perm)` (Go's and-not `&^`). */
  function Remove(p: Permission, perm: Permission): Permission {
    p & !perm
  }

  /** A mask with exactly one bit set, such as one named flag. */
  predicate SingleBit(b: Permission) {
    b != 0 && b & (b - 1) == 0
  }

  /** `Has` is "no bit of `perm` is missing from `p`". */
  lemma HasMeansNoMissingBit(p: Permission, perm: Permission)
    ensures Has(p, perm) <==> perm & !p == 0
  {
    if Has(p, perm) {
      BitFacts.NoMissingBitFrom(p, perm);
    }
    if perm & !p == 0 {
      BitFacts.NoMissingBitTo(p, perm);
    }
  }

  /** `Has` is an order on masks: reflexive, transitive, with the empty mask at the bottom. */
  lemma HasIsOrder(p: Permission, q: Permission, r: Permission)
    ensures Has(p, 0) && Has(p, p)
    ensures Has(p, q) && Has(q, r) ==> Has(p, r)
  {
    BitFacts.NoneAndSelf(p);
    if Has(p, q) && Has(q, r) {
      BitFacts.Transitive(p, q, r);
    }
  }

  /** `Add` contains both operands and is their least upper bound; it is commutative and idempotent. */
  lemma AddIsUnion(p: Permission, q: Permission, r: Permission)
    ensures Has(Add(p, q), p) && Has(Add(p, q), q)
    ensures Has(r, Add(p, q)) <==> Has(r, p) && Has(r, q)
    ensures Add(p, q) == Add(q, p)
    ensures Add(Add(p, q), q) == Add(p, q)
  {
    BitFacts.OrContainsBoth(p, q);
    if Has(r, p) && Has(r, q) {
      BitFacts.OrBelow(p, q, r);
    }
    if Has(r, Add(p, q)) {
      BitFacts.OrAboveLeft(p, q, r);
      BitFacts.OrAboveRight(p, q, r);
    }
    BitFacts.OrCommutes(p, q);
    BitFacts.OrIdempotent(p, q);
  }

  /** `Remove` clears exactly the bits of `perm` and keeps every other bit of `p`. */
  lemma RemoveClearsExactly(p: Permission, perm: Permission)
    ensures Remove(p, perm) & perm == 0
    ensures Remove(p, perm) & !perm == p & !perm
  {
    BitFacts.AndNotClears(p, perm);
    BitFacts.AndNotKeeps(p, perm);
  }

  /** Adding back what was removed restores a mask that had it. */
  lemma RemoveThenAdd(p: Permission, perm: Permission)
    requires Has(p, perm)
    ensures Add(Remove(p, perm), perm) == p
  {
    BitFacts.AndNotThenOr(p, perm);
  }

  /** A single bit is in a union exactly when it is in one of the operands. */
  lemma AddBit(p: Permission, q: Permission, b: Permission)
    requires SingleBit(b)
    ensures Has(Add(p, q), b) <==> Has(p, b) || Has(q, b)
  {
    if Has(p, b) || Has(q, b) {
      BitFacts.OrKeepsBit(p, q, b);
    }
    if Has(Add(p, q), b) {
      BitFacts.OrSplitsBit(p, q, b);
    }
  }

  /** A single bit survives `Remove` exactly when it is in `p` and not in what is removed. */
  lemma RemoveBit(p: Permission, q: Permission, b: Permission)
    requires SingleBit(b)
    ensures Has(Remove(p, q), b) <==> Has(p, b) && !Has(q, b)
  {
    if Has(p, b) && !Has(q, b) {
      BitFacts.AndNotKeepsBit(p, q, b);
    }
    if Has(Remove(p, q), b) {
      BitFacts.AndNotDropsBit(p, q, b);
    }
  }

  /** A bit pattern is in `p & m` exactly when it is in both. */
  lemma AndHas(p: Permission, m: Permission, b: Permission)
    ensures Has(p & m, b) <==> Has(p, b) && Has(m, b)
  {
    if Has(p & m, b) {
      BitFacts.AndSplits(p, m, b);
    }
    if Has(p, b) && Has(m, b) {
      BitFacts.AndJoins(p, m, b);
    }
  }
}
