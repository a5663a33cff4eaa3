/** Paths: splitting and joining at a separator, trimming slashes, and template parts. */
module Paths {
  import opened Options

  predicate Free(sep: char, s: string) {
    sep !in s
  }

  predicate SlashFree(s: string) {
    Free('/', s)
  }

  function TrimLeft(s: string): string {
    if s != "" && s[0] == '/' then TrimLeft(s[1..]) else s
  }

  function TrimRight(s: string): string {
    if s != "" && s[|s| - 1] == '/' then TrimRight(s[..|s| - 1]) else s
  }

  function Trim(s: string): string {
    TrimRight(TrimLeft(s))
  }

  /** The pieces of `s` between separators; an empty string has one empty piece. */
  function Split(sep: char, s: string): (parts: seq<string>)
    ensures parts != []
    ensures forall p :: p in parts ==> Free(sep, p)
  {
    SplitAfter(sep, "", s)
  }

  /** Splits `s`, whose first piece has already begun with `piece`. */
  function SplitAfter(sep: char, piece: string, s: string): (parts: seq<string>)
    requires Free(sep, piece)
    ensures parts != []
    ensures forall p :: p in parts ==> Free(sep, p)
    decreases |s|
  {
    if s == "" then [piece]
    else if s[0] == sep then [piece] + SplitAfter(sep, "", s[1..])
    else SplitAfter(sep, piece + [s[0]], s[1..])
  }

  function Join(sep: char, parts: seq<string>): string
    requires parts != []
  {
    if |parts| == 1 then parts[0] else parts[0] + [sep] + Join(sep, parts[1..])
  }

  lemma {:induction false} SplitPiece(sep: char, piece: string, a: string, rest: string)
    requires Free(sep, piece) && Free(sep, a) && (rest == "" || rest[0] == sep)
    ensures SplitAfter(sep, piece, a + rest) ==
      if rest == "" then [piece + a] else [piece + a] + SplitAfter(sep, "", rest[1..])
    decreases |a|
  {
    if a == "" {
      assert a + rest == rest && piece + a == piece;
    } else {
      assert a[0] in a && (a + rest)[1..] == a[1..] + rest;
      SplitPiece(sep, piece + [a[0]], a[1..], rest);
      assert piece + [a[0]] + a[1..] == piece + a;
    }
  }

  lemma SplitOne(sep: char, part: string)
    requires Free(sep, part)
    ensures Split(sep, part) == [part]
  {
    SplitPiece(sep, "", part, "");
    assert part + "" == part && "" + part == part;
  }

  lemma SplitFirst(sep: char, part: string, rest: string)
    requires Free(sep, part)
    ensures Split(sep, part + [sep] + rest) == [part] + Split(sep, rest)
  {
    SplitPiece(sep, "", part, [sep] + rest);
    assert part + ([sep] + rest) == part + [sep] + rest && ([sep] + rest)[1..] == rest && "" + part == part;
  }

  lemma {:induction false} SplitJoin(sep: char, parts: seq<string>)
    requires parts != [] && forall p :: p in parts ==> Free(sep, p)
    ensures Split(sep, Join(sep, parts)) == parts
    decreases |parts|
  {
    assert parts[0] in parts;
    if |parts| == 1 {
      SplitOne(sep, parts[0]);
    } else {
      SplitFirst(sep, parts[0], Join(sep, parts[1..]));
      SplitJoin(sep, parts[1..]);
    }
  }

  lemma {:induction false} JoinEnds(parts: seq<string>)
    requires parts != [] && (forall p :: p in parts ==> SlashFree(p)) && parts[0] != "" && parts[|parts| - 1] != ""
    ensures Join('/', parts) != "" && Join('/', parts)[0] != '/' && Join('/', parts)[|Join('/', parts)| - 1] != '/'
    decreases |parts|
  {
    assert parts[0] in parts && parts[0][0] in parts[0];
    if |parts| == 1 {
      assert parts[0][|parts[0]| - 1] in parts[0];
    } else if |parts| == 2 {
      assert parts[1] in parts && parts[1][|parts[1]| - 1] in parts[1];
    } else {
      LastOfJoin(parts[1..]);
      var last := parts[|parts| - 1];
      assert last in parts && last[|last| - 1] in last;
    }
  }

  lemma {:induction false} LastOfJoin(parts: seq<string>)
    requires parts != [] && parts[|parts| - 1] != ""
    ensures Join('/', parts) != "" &&
      Join('/', parts)[|Join('/', parts)| - 1] == parts[|parts| - 1][|parts[|parts| - 1]| - 1]
    decreases |parts|
  {
    if |parts| > 1 {
      LastOfJoin(parts[1..]);
    }
  }

  function Slashes(n: nat): string {
    seq(n, _ => '/')
  }

  lemma {:induction false} TrimmedLeft(m: nat, s: string)
    requires s != "" && s[0] != '/'
    ensures TrimLeft(Slashes(m) + s) == s
  {
    if m == 0 {
      assert Slashes(m) + s == s;
    } else {
      assert (Slashes(m) + s)[1..] == Slashes(m - 1) + s;
      TrimmedLeft(m - 1, s);
    }
  }

  lemma {:induction false} TrimmedRight(s: string, n: nat)
    requires s != "" && s[|s| - 1] != '/'
    ensures TrimRight(s + Slashes(n)) == s
  {
    if n == 0 {
      assert s + Slashes(n) == s;
    } else {
      var longer := s + Slashes(n);
      assert longer[..|longer| - 1] == s + Slashes(n - 1);
      TrimmedRight(s, n - 1);
    }
  }

  lemma {:induction false} OnlySlashes(n: nat)
    ensures Trim(Slashes(n)) == "" && Split('/', Trim(Slashes(n))) == [""]
  {
    if n > 0 {
      assert Slashes(n)[1..] == Slashes(n - 1);
      OnlySlashes(n - 1);
    }
  }

  /** Any slashes at the ends go. */
  lemma TrimKeeps(m: nat, s: string, n: nat)
    requires s != "" && s[0] != '/' && s[|s| - 1] != '/'
    ensures Trim(Slashes(m) + s + Slashes(n)) == s
  {
    assert Slashes(m) + s + Slashes(n) == Slashes(m) + (s + Slashes(n));
    TrimmedLeft(m, s + Slashes(n));
    TrimmedRight(s, n);
  }

  /** A path made of slash-free parts with non-empty ends, with any slashes around it. */
  lemma PartsOfPath(m: nat, parts: seq<string>, n: nat)
    requires parts != [] && (forall p :: p in parts ==> SlashFree(p)) && parts[0] != "" && parts[|parts| - 1] != ""
    ensures Split('/', Trim(Slashes(m) + Join('/', parts) + Slashes(n))) == parts
  {
    JoinEnds(parts);
    TrimKeeps(m, Join('/', parts), n);
    SplitJoin('/', parts);
  }

  /** Joining what was split gives the text back. */
  lemma {:induction false} JoinSplit(sep: char, piece: string, s: string)
    requires Free(sep, piece)
    ensures Join(sep, SplitAfter(sep, piece, s)) == piece + s
    decreases |s|
  {
    if s != "" {
      assert s == [s[0]] + s[1..];
      if s[0] == sep {
        JoinSplit(sep, "", s[1..]);
        var rest := SplitAfter(sep, "", s[1..]);
        assert ([piece] + rest)[1..] == rest;
      } else {
        JoinSplit(sep, piece + [s[0]], s[1..]);
      }
    }
  }

  /** `{name}` with a non-empty name free of braces. */
  function IsParam(p: string): Option<string> {
    if |p| < 3 || p[0] != '{' || p[|p| - 1] != '}' then None
    else
      var name := p[1..|p| - 1];
      if '{' in name || '}' in name then None else Some(name)
  }

  /** A part is a parameter if and only if it is a name in braces. */
  lemma ParamExactlyWhen(p: string, name: string)
    ensures IsParam(p) == Some(name) <==> p == "{" + name + "}" && name != "" && '{' !in name && '}' !in name
  {
    if p == "{" + name + "}" {
      assert p[1..|p| - 1] == name;
    }
  }

  /** The key a template part is filed under: empty for a parameter. */
  function KeyPart(p: string): string {
    if IsParam(p).Some? then "" else p
  }

  function Key(parts: seq<string>): (key: seq<string>)
    ensures |key| == |parts| && forall i :: 0 <= i < |parts| ==> key[i] == KeyPart(parts[i])
  {
    seq(|parts|, i requires 0 <= i < |parts| => KeyPart(parts[i]))
  }
}
