/**
  The permission bitmask (pkg/acl/permissions.go): five stable single-bit
  flags persisted as an integer, the fixed role unions, the debug rendering
  `String`, and `ParsePermissions`, which turns a role name, a decimal
  string or a Go `int` into a mask. The bit operations themselves are in
  `Bitmask`.

  Go's `int` is 64 bits wide; an `int` converts to a mask by two's
  complement and nothing checks that only the five known bits are set.
 */
module Permissions {
  import opened Common
  import opened Bitmask
  import BitFacts
  import Text
  import Numeric

  // `1 << iota` for iota = 0 .. 4.
  const PermissionNone: Permission := 0
  const PermissionRead: Permission := 0x01
  const PermissionWrite: Permission := 0x02
  const PermissionDelete: Permission := 0x04
  const PermissionShare: Permission := 0x08
  const PermissionAdmin: Permission := 0x10

  const RoleViewer: Permission := PermissionRead
  const RoleEditor: Permission := PermissionRead | PermissionWrite
  const RoleOwner: Permission := PermissionRead | PermissionWrite | PermissionDelete | PermissionShare
  const RoleFullAccess: Permission := RoleOwner | PermissionAdmin

  /** The five named flags. */
  datatype Flag = Read | Write | Delete | Share | Admin

  /** The order in which `String` lists flags. */
  const FlagOrder: seq<Flag> := [Read, Write, Delete, Share, Admin]

  function FlagBit(f: Flag): Permission {
    match f
    case Read => PermissionRead
    case Write => PermissionWrite
    case Delete => PermissionDelete
    case Share => PermissionShare
    case Admin => PermissionAdmin
  }

  function FlagName(f: Flag): string {
    match f
    case Read => "READ"
    case Write => "WRITE"
    case Delete => "DELETE"
    case Share => "SHARE"
    case Admin => "ADMIN"
  }

  /** The named flag `f` is set in `p`. */
  predicate HasFlag(p: Permission, f: Flag) {
    Has(p, FlagBit(f))
  }

  /** A mask that uses only the five named bits. */
  predicate KnownBits(p: Permission) {
    p & !RoleFullAccess == 0
  }

  /**
    The persisted layout: five distinct single bits 1, 2, 4, 8, 16, and the
    role unions VIEWER = READ, EDITOR = READ|WRITE, OWNER = everything but
    ADMIN, full access = all five.
   */
  lemma StableLayout(f: Flag, g: Flag)
    ensures SingleBit(FlagBit(f))
    ensures f != g ==> FlagBit(f) & FlagBit(g) == 0
    ensures RoleViewer == 1 && RoleEditor == 3 && RoleOwner == 15 && RoleFullAccess == 31
    ensures HasFlag(RoleViewer, f) <==> f == Read
    ensures HasFlag(RoleEditor, f) <==> f == Read || f == Write
    ensures HasFlag(RoleOwner, f) <==> f != Admin
    ensures HasFlag(RoleFullAccess, f)
    ensures !HasFlag(PermissionNone, f)
  {
  }

  /** Every named flag of a mask that `p` has is set in `p`. */
  lemma HasKeepsFlags(p: Permission, perm: Permission, f: Flag)
    requires Has(p, perm)
    ensures HasFlag(perm, f) ==> HasFlag(p, f)
  {
    HasIsOrder(p, perm, FlagBit(f));
  }

  /** For a mask of known bits the converse holds: its named flags decide `Has`. */
  lemma FlagsDecideHas(p: Permission, perm: Permission)
    requires KnownBits(perm)
    requires forall f :: HasFlag(perm, f) ==> HasFlag(p, f)
    ensures Has(p, perm)
  {
    assert HasFlag(perm, Read) ==> HasFlag(p, Read);
    assert HasFlag(perm, Write) ==> HasFlag(p, Write);
    assert HasFlag(perm, Delete) ==> HasFlag(p, Delete);
    assert HasFlag(perm, Share) ==> HasFlag(p, Share);
    assert HasFlag(perm, Admin) ==> HasFlag(p, Admin);
    BitFacts.LowFiveDecide(p, perm);
  }

  /** On the named flags `Add` is union. */
  lemma AddFlags(p: Permission, q: Permission, f: Flag)
    ensures HasFlag(Add(p, q), f) <==> HasFlag(p, f) || HasFlag(q, f)
  {
    StableLayout(f, f);
    AddBit(p, q, FlagBit(f));
  }

  /** On the named flags `Remove` is difference. */
  lemma RemoveFlags(p: Permission, q: Permission, f: Flag)
    ensures HasFlag(Remove(p, q), f) <==> HasFlag(p, f) && !HasFlag(q, f)
  {
    StableLayout(f, f);
    RemoveBit(p, q, FlagBit(f));
  }

  /** The names of the flags of `order` set in `p`, keeping the order. */
  function NamesOf(order: seq<Flag>, p: Permission): seq<string> {
    if |order| == 0 then []
    else (if HasFlag(p, order[0]) then [FlagName(order[0])] else []) + NamesOf(order[1..], p)
  }

  /** A flag's name is listed exactly when the flag is in the order and set. */
  lemma {:induction false} NameListed(order: seq<Flag>, p: Permission, f: Flag)
    ensures FlagName(f) in NamesOf(order, p) <==> f in order && HasFlag(p, f)
  {
    if |order| > 0 {
      NameListed(order[1..], p, f);
      assert order == [order[0]] + order[1..];
      assert FlagName(f) == FlagName(order[0]) <==> f == order[0];
    }
  }

  /**
    `p.String()`: the names of the set flags in the fixed order, joined by
    '|', or "NONE" when there are none. The five `if`s of the Go code are
    `NamesOf(FlagOrder, p)`.
   */
  function String(p: Permission): string {
    var perms := NamesOf(FlagOrder, p);
    if |perms| == 0 then "NONE" else Text.Join(perms, '|')
  }

  /** Every listed name is a flag's name, and none contains '|'. */
  lemma {:induction false} NameShape(order: seq<Flag>, p: Permission, i: nat)
    requires i < |NamesOf(order, p)|
    ensures exists f :: NamesOf(order, p)[i] == FlagName(f)
    ensures '|' !in NamesOf(order, p)[i]
    ensures NamesOf(order, p)[i] != "NONE"
  {
    var head := if HasFlag(p, order[0]) then [FlagName(order[0])] else [];
    if i < |head| {
      assert NamesOf(order, p)[i] == FlagName(order[0]);
    } else {
      NameShape(order[1..], p, i - |head|);
      assert NamesOf(order, p)[i] == NamesOf(order[1..], p)[i - |head|];
    }
  }

  /** Masks that agree on the named flags list the same names. */
  lemma {:induction false} NamesAgree(order: seq<Flag>, p: Permission, q: Permission)
    requires forall f :: HasFlag(p, f) == HasFlag(q, f)
    ensures NamesOf(order, p) == NamesOf(order, q)
  {
    if |order| > 0 {
      NamesAgree(order[1..], p, q);
      assert HasFlag(p, order[0]) == HasFlag(q, order[0]);
    }
  }

  /**
    Reading a rendering back: split on '|' it is the set flags' names in the
    fixed order READ, WRITE, DELETE, SHARE, ADMIN, or just "NONE" when no
    named flag is set. Bits above the fifth never show.
   */
  lemma StringLists(p: Permission)
    ensures (forall f :: !HasFlag(p, f)) <==> String(p) == "NONE"
    ensures String(p) != "NONE" ==> Text.Split(String(p), '|') == NamesOf(FlagOrder, p)
    ensures forall f :: FlagName(f) in NamesOf(FlagOrder, p) <==> HasFlag(p, f)
  {
    var names := NamesOf(FlagOrder, p);
    forall f ensures FlagName(f) in names <==> HasFlag(p, f) {
      NameListed(FlagOrder, p, f);
    }
    if names != [] {
      forall i | 0 <= i < |names|
        ensures '|' !in names[i]
      {
        NameShape(FlagOrder, p, i);
      }
      Text.SplitJoin(names, '|');
      NameShape(FlagOrder, p, 0);
      var f :| names[0] == FlagName(f);
      assert FlagName(f) in names;
    } else {
      forall f ensures !HasFlag(p, f) {
        assert FlagName(f) !in names;
      }
    }
  }

  /** Two masks render alike exactly when they agree on the five named bits. */
  lemma StringDeterminesFlags(p: Permission, q: Permission)
    ensures String(p) == String(q) <==> forall f :: HasFlag(p, f) == HasFlag(q, f)
  {
    if forall f :: HasFlag(p, f) == HasFlag(q, f) {
      NamesAgree(FlagOrder, p, q);
    }
    if String(p) == String(q) {
      StringLists(p);
      StringLists(q);
      assert forall f :: HasFlag(p, f) == HasFlag(q, f);
    }
  }

  /** Go's conversion of an `int` to `Permission`: the same 64 bits, two's complement. */
  function FromInt(v: Int64): Permission {
    if v >= 0 then v as bv64 else (v + 0x1_0000_0000_0000_0000) as bv64
  }

  /** The dynamic type of `ParsePermissions`' `interface{}` argument. */
  datatype PermInput =
    | IntValue(v: Int64)              // a Go `int`
    | StrValue(s: string)             // a Go `string`
    | NullValue                       // `nil`: JSON `null`, or the field absent
    | OtherValue                      // any other value (JSON numbers decode to float64)

  datatype PermError = InvalidPermission(text: string) | UnsupportedPermissionType

  /** `ParsePermissions(input)`; on error Go also returns `PermissionNone`, which every caller discards. */
  function ParsePermissions(input: PermInput): Result<Permission, PermError> {
    match input
    case IntValue(v) => Ok(FromInt(v))
    case StrValue(s) =>
      var upper := Text.ToUpper(s);
      if upper == "VIEWER" then Ok(RoleViewer)
      else if upper == "EDITOR" then Ok(RoleEditor)
      else if upper == "OWNER" then Ok(RoleOwner)
      else if upper == "ADMIN" then Ok(RoleFullAccess)
      else (
        match Numeric.ParseInt64(s)
        case Some(n) => Ok(FromInt(n))
        case None => Err(InvalidPermission(s)))
    case NullValue => Err(UnsupportedPermissionType)
    case OtherValue => Err(UnsupportedPermissionType)
  }

  /** `s` spells the lower-case `word` with any mix of lower- and upper-case letters. */
  predicate SpelledAnyCase(s: string, word: string) {
    |s| == |word| && forall i :: 0 <= i < |s| ==> s[i] == word[i] || s[i] == Text.UpperRune(word[i])
  }

  /** The four role names are recognised whatever their letter case. */
  lemma RoleNamesAnyCase(s: string)
    ensures SpelledAnyCase(s, "viewer") ==> ParsePermissions(StrValue(s)) == Ok(RoleViewer)
    ensures SpelledAnyCase(s, "editor") ==> ParsePermissions(StrValue(s)) == Ok(RoleEditor)
    ensures SpelledAnyCase(s, "owner") ==> ParsePermissions(StrValue(s)) == Ok(RoleOwner)
    ensures SpelledAnyCase(s, "admin") ==> ParsePermissions(StrValue(s)) == Ok(RoleFullAccess)
  {
    if SpelledAnyCase(s, "viewer") { ViewerAnyCase(s); }
    if SpelledAnyCase(s, "editor") { EditorAnyCase(s); }
    if SpelledAnyCase(s, "owner") { OwnerAnyCase(s); }
    if SpelledAnyCase(s, "admin") { AdminAnyCase(s); }
  }

  lemma ViewerAnyCase(s: string)
    requires SpelledAnyCase(s, "viewer")
    ensures ParsePermissions(StrValue(s)) == Ok(RoleViewer)
  {
    UpperOfSpelling(s, "viewer");
    assert Text.ToUpper("viewer") == "VIEWER";
  }

  lemma EditorAnyCase(s: string)
    requires SpelledAnyCase(s, "editor")
    ensures ParsePermissions(StrValue(s)) == Ok(RoleEditor)
  {
    UpperOfSpelling(s, "editor");
    assert Text.ToUpper("editor") == "EDITOR";
  }

  lemma OwnerAnyCase(s: string)
    requires SpelledAnyCase(s, "owner")
    ensures ParsePermissions(StrValue(s)) == Ok(RoleOwner)
  {
    UpperOfSpelling(s, "owner");
    assert Text.ToUpper("owner") == "OWNER";
  }

  lemma AdminAnyCase(s: string)
    requires SpelledAnyCase(s, "admin")
    ensures ParsePermissions(StrValue(s)) == Ok(RoleFullAccess)
  {
    UpperOfSpelling(s, "admin");
    assert Text.ToUpper("admin") == "ADMIN";
  }

  /** Any spelling of a lower-case ASCII word upper-cases like the word. */
  lemma UpperOfSpelling(s: string, word: string)
    requires SpelledAnyCase(s, word)
    requires forall i :: 0 <= i < |word| ==> 'a' <= word[i] <= 'z'
    ensures Text.ToUpper(s) == Text.ToUpper(word)
  {
    forall i | 0 <= i < |s|
      ensures Text.UpperRune(s[i]) == Text.UpperRune(word[i])
    {
    }
  }

  /** A decimal string is never mistaken for a role name. */
  lemma DecimalIsNoRoleName(s: string)
    requires Numeric.ParseInt64(s).Some?
    ensures Text.ToUpper(s) !in {"VIEWER", "EDITOR", "OWNER", "ADMIN"}
  {
    Numeric.ParsedIsDecimal(s);
    var u := Text.ToUpper(s);
    assert u[|u| - 1] == s[|s| - 1];
    assert Numeric.IsDigit(s[|s| - 1]);
  }

  /**
    Any other decimal string is taken as that int64 with no check on the
    bits; a string that is neither a role name nor decimal is an error.
    Inputs that are neither `int` nor `string` are always errors.
   */
  lemma NumbersAndErrors(input: PermInput)
    ensures input.IntValue? ==> ParsePermissions(input) == Ok(FromInt(input.v))
    ensures input.StrValue? && Numeric.ParseInt64(input.s).Some? ==>
              ParsePermissions(input) == Ok(FromInt(Numeric.ParseInt64(input.s).value))
    ensures input.StrValue? && ParsePermissions(input).Err? ==>
              ParsePermissions(input) == Err(InvalidPermission(input.s)) && Numeric.ParseInt64(input.s).None?
    ensures (input.NullValue? || input.OtherValue?) ==> ParsePermissions(input) == Err(UnsupportedPermissionType)
  {
    if input.StrValue? && Numeric.ParseInt64(input.s).Some? {
      DecimalIsNoRoleName(input.s);
    }
  }

  /** A mask written as its decimal `int` and parsed back from that string is the same mask. */
  lemma DecimalRoundTrip(v: Int64)
    ensures ParsePermissions(StrValue(Numeric.FormatInt(v))) == ParsePermissions(IntValue(v))
  {
    Numeric.FormatThenParse(v);
    DecimalIsNoRoleName(Numeric.FormatInt(v));
  }
}
