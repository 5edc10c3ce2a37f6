/**
  The few string primitives of Go's `strings` package that the core relies
  on: `Split` and `Join` on a one-character separator (the Authorization
  header and the permission rendering), `ContainsAny` (the file-server path
  guard) and `ToUpper` (role names in permission parsing).
 */
module Text {

  /** Position of the first `c` in `s`, or `|s|` when `s` has none. */
  function IndexOf(s: string, c: char): (i: nat)
    ensures i <= |s|
    ensures i < |s| ==> s[i] == c
    ensures forall j :: 0 <= j < i ==> s[j] != c
  {
    if |s| == 0 then 0
    else if s[0] == c then 0
    else 1 + IndexOf(s[1..], c)
  }

  /** `strings.Split(s, string(sep))`: the pieces between the separators. */
  function Split(s: string, sep: char): (parts: seq<string>)
    ensures |parts| >= 1
    ensures forall i :: 0 <= i < |parts| ==> sep !in parts[i]
    decreases |s|
  {
    var i := IndexOf(s, sep);
    if i == |s| then [s]
    else [s[..i]] + Split(s[i + 1..], sep)
  }

  /** `strings.Join(parts, string(sep))`. */
  function Join(parts: seq<string>, sep: char): string
    decreases |parts|
  {
    if |parts| == 0 then ""
    else if |parts| == 1 then parts[0]
    else parts[0] + [sep] + Join(parts[1..], sep)
  }

  /** The first separator of `a + [sep] + b` is the one after `a` when `a` has none. */
  lemma IndexOfAfterPrefix(a: string, sep: char, b: string)
    requires sep !in a
    ensures IndexOf(a + [sep] + b, sep) == |a|
  {
    var s := a + [sep] + b;
    assert s[|a|] == sep;
    assert forall j :: 0 <= j < |a| ==> s[j] == a[j];
  }

  /** Joining the pieces of a split restores the string. */
  lemma {:induction false} JoinSplit(s: string, sep: char)
    ensures Join(Split(s, sep), sep) == s
    decreases |s|
  {
    var i := IndexOf(s, sep);
    if i < |s| {
      JoinSplit(s[i + 1..], sep);
      JoinCons(s[..i], Split(s[i + 1..], sep), sep);
      CutAt(s, i);
    }
  }

  /** Joining a piece in front of at least one more puts one separator between. */
  lemma JoinCons(head: string, tail: seq<string>, sep: char)
    requires |tail| >= 1
    ensures Join([head] + tail, sep) == head + [sep] + Join(tail, sep)
  {
    assert ([head] + tail)[1..] == tail;
  }

  /** A string is its part before position `i`, the character there, and the rest. */
  lemma CutAt(s: string, i: nat)
    requires i < |s|
    ensures s == s[..i] + [s[i]] + s[i + 1..]
  {
  }

  /** Splitting a join of separator-free pieces gives back the pieces. */
  lemma {:induction false} SplitJoin(parts: seq<string>, sep: char)
    requires |parts| >= 1
    requires forall i :: 0 <= i < |parts| ==> sep !in parts[i]
    ensures Split(Join(parts, sep), sep) == parts
    decreases |parts|
  {
    if |parts| > 1 {
      SplitJoin(parts[1..], sep);
      SplitAfterFirst(parts[0], sep, Join(parts[1..], sep));
      assert parts == [parts[0]] + parts[1..];
    } else {
      assert IndexOf(parts[0], sep) == |parts[0]|;
    }
  }

  /** The first piece of `a + [sep] + b` is `a` when `a` has no separator. */
  lemma SplitAfterFirst(a: string, sep: char, b: string)
    requires sep !in a
    ensures Split(a + [sep] + b, sep) == [a] + Split(b, sep)
  {
    var s := a + [sep] + b;
    IndexOfAfterPrefix(a, sep, b);
    assert s[..|a|] == a;
    assert s[|a| + 1..] == b;
  }

  /** `strings.ContainsAny(s, chars)`. */
  predicate ContainsAny(s: string, chars: string) {
    exists i :: 0 <= i < |s| && s[i] in chars
  }

  /**
    Go's `unicode.ToUpper` restricted to what a comparison against an ASCII
    word can observe: the ASCII letters, plus the two non-ASCII runes whose
    upper case is an ASCII letter (dotless i and long s). Every other rune
    is kept, which is exact for such comparisons because its real upper
    case is not an ASCII letter either.
   */
  function UpperRune(c: char): char {
    if 'a' <= c <= 'z' then (c as int - 32) as char
    else if c == 'ı' then 'I'
    else if c == 'ſ' then 'S'
    else c
  }

  /** `strings.ToUpper`, rune by rune. */
  function ToUpper(s: string): (u: string)
    ensures |u| == |s|
    ensures forall i :: 0 <= i < |s| ==> u[i] == UpperRune(s[i])
  {
    seq(|s|, i requires 0 <= i < |s| => UpperRune(s[i]))
  }
}
