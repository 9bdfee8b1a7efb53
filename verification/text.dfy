/**
 * Character and string operations that both the JavaScript pages and the Python page generator
 * rely on: trimming, splitting on a delimiter, joining, prefixes, lower-casing and runs of hyphens.
 */
module Text {

  /** The sets of characters a trim operation may remove. */
  datatype CharClass =
    | JsWhiteSpace   // String.prototype.trim: WhiteSpace and LineTerminator of ECMAScript
    | PyWhiteSpace   // str.isspace(), used by str.strip() and by `\s` on str patterns
    | Hyphen         // str.strip('-')

  predicate IsJsSpace(c: char) {
    c == '\t' || c == '\n' || c == '\U{B}' || c == '\U{C}' || c == '\r' || c == ' '
    || c == '\U{A0}' || c == '\U{1680}' || ('\U{2000}' <= c <= '\U{200A}')
    || c == '\U{2028}' || c == '\U{2029}' || c == '\U{202F}' || c == '\U{205F}'
    || c == '\U{3000}' || c == '\U{FEFF}'
  }

  predicate IsPySpace(c: char) {
    ('\t' <= c <= '\r') || ('\U{1C}' <= c <= '\U{1F}') || c == ' ' || c == '\U{85}'
    || c == '\U{A0}' || c == '\U{1680}' || ('\U{2000}' <= c <= '\U{200A}')
    || c == '\U{2028}' || c == '\U{2029}' || c == '\U{202F}' || c == '\U{205F}'
    || c == '\U{3000}'
  }

  predicate InClass(cls: CharClass, c: char) {
    match cls
    case JsWhiteSpace => IsJsSpace(c)
    case PyWhiteSpace => IsPySpace(c)
    case Hyphen => c == '-'
  }

  predicate AllIn(cls: CharClass, s: string) {
    forall i :: 0 <= i < |s| ==> InClass(cls, s[i])
  }

  /** `t` is a suffix of `s`. */
  predicate EndsWith(s: string, t: string) {
    |t| <= |s| && s[|s| - |t|..] == t
  }

  /** Neither end of `s` is a character of `cls`. */
  predicate IsTrimmed(cls: CharClass, s: string) {
    s == [] || (!InClass(cls, s[0]) && !InClass(cls, s[|s| - 1]))
  }

  function TrimStart(cls: CharClass, s: string): (r: string)
    ensures |r| <= |s| && r == s[|s| - |r|..]
    ensures AllIn(cls, s[..|s| - |r|])
    ensures r == [] || !InClass(cls, r[0])
  {
    if s != [] && InClass(cls, s[0]) then
      var r := TrimStart(cls, s[1..]);
      assert s[1..][..|s| - 1 - |r|] == s[1..|s| - |r|];
      r
    else s
  }

  function TrimEnd(cls: CharClass, s: string): (r: string)
    ensures |r| <= |s| && r == s[..|r|]
    ensures AllIn(cls, s[|r|..])
    ensures r == [] || !InClass(cls, r[|r| - 1])
  {
    if s != [] && InClass(cls, s[|s| - 1]) then
      var r := TrimEnd(cls, s[..|s| - 1]);
      assert s[..|s| - 1][|r|..] + [s[|s| - 1]] == s[|r|..];
      r
    else s
  }

  /**
   * Removes every leading and trailing character of `cls`: the result is the slice of `s`
   * that remains once a run of such characters is cut from each end.
   */
  function Trim(cls: CharClass, s: string): (r: string)
    ensures IsTrimmed(cls, r)
    ensures |r| <= |s|
  {
    TrimEnd(cls, TrimStart(cls, s))
  }

  /** What trimming keeps is the slice of `s` between a leading and a trailing run of `cls`. */
  lemma TrimIsSlice(cls: CharClass, s: string)
    ensures exists i, j :: 0 <= i <= j <= |s| && Trim(cls, s) == s[i..j] && AllIn(cls, s[..i]) && AllIn(cls, s[j..])
  {
    var a := TrimStart(cls, s);
    var r := TrimEnd(cls, a);
    var i := |s| - |a|;
    SliceOfSlice(s, i, |r|);
    assert Trim(cls, s) == s[i..i + |r|] && AllIn(cls, s[..i]) && AllIn(cls, s[i + |r|..]);
  }

  /** Cutting a suffix of a suffix, or a prefix of it, is a slice of the whole. */
  lemma SliceOfSlice(s: string, i: nat, m: nat)
    requires i + m <= |s|
    ensures s[i..][m..] == s[i + m..] && s[i..][..m] == s[i..i + m]
  {
  }

  lemma {:induction false} TrimStartNoop(cls: CharClass, s: string)
    requires s == [] || !InClass(cls, s[0])
    ensures TrimStart(cls, s) == s
  {
  }

  /** A leading character of the class is cut by trimming. */
  lemma TrimSkipsLead(cls: CharClass, c: char, s: string)
    requires InClass(cls, c)
    ensures Trim(cls, [c] + s) == Trim(cls, s)
  {
    assert ([c] + s)[1..] == s;
  }

  /** Trimming a string that is already trimmed changes nothing, so trimming is idempotent. */
  lemma TrimOfTrimmed(cls: CharClass, s: string)
    requires IsTrimmed(cls, s)
    ensures Trim(cls, s) == s
  {
  }

  lemma TrimIdempotent(cls: CharClass, s: string)
    ensures Trim(cls, Trim(cls, s)) == Trim(cls, s)
  {
    TrimOfTrimmed(cls, Trim(cls, s));
  }

  /** Two character classes that agree on every character of `s` trim `s` alike. */
  lemma {:induction false} TrimStartAgree(a: CharClass, b: CharClass, s: string)
    requires forall i :: 0 <= i < |s| ==> (InClass(a, s[i]) <==> InClass(b, s[i]))
    ensures TrimStart(a, s) == TrimStart(b, s)
  {
    if s != [] && InClass(a, s[0]) {
      TrimStartAgree(a, b, s[1..]);
    }
  }

  lemma {:induction false} TrimEndAgree(a: CharClass, b: CharClass, s: string)
    requires forall i :: 0 <= i < |s| ==> (InClass(a, s[i]) <==> InClass(b, s[i]))
    ensures TrimEnd(a, s) == TrimEnd(b, s)
  {
    if s != [] && InClass(a, s[|s| - 1]) {
      TrimEndAgree(a, b, s[..|s| - 1]);
    }
  }

  lemma TrimAgree(a: CharClass, b: CharClass, s: string)
    requires forall i :: 0 <= i < |s| ==> (InClass(a, s[i]) <==> InClass(b, s[i]))
    ensures Trim(a, s) == Trim(b, s)
  {
    TrimStartAgree(a, b, s);
    var t := TrimStart(a, s);
    assert forall i :: 0 <= i < |t| ==> t[i] == s[|s| - |t| + i];
    TrimEndAgree(a, b, t);
  }

  /** Trimming the start skips a leading run of `cls` and stops at the first other character. */
  lemma TrimStartSkips(cls: CharClass, p: string, s: string)
    requires AllIn(cls, p)
    requires s == [] || !InClass(cls, s[0])
    ensures TrimStart(cls, p + s) == s
  {
    var q := p + s;
    forall i | 0 <= i < |p|
      ensures InClass(cls, q[i])
    {
      assert q[i] == p[i];
    }
    TrimStartCutsRun(cls, q, |p|);
    if s != [] {
      assert q[|p|] == s[0];
      TrimStartStopsAt(cls, q, |p|);
    }
    assert q[|p|..] == s;
  }

  /** A leading run of `k` characters of `cls` is all cut. */
  lemma TrimStartCutsRun(cls: CharClass, q: string, k: nat)
    requires k <= |q| && forall i :: 0 <= i < k ==> InClass(cls, q[i])
    ensures |q| - |TrimStart(cls, q)| >= k
  {
    var r := TrimStart(cls, q);
    assert r != [] ==> r[0] == q[|q| - |r|];
  }

  /** Trimming stops at the first character that is not in `cls`. */
  lemma TrimStartStopsAt(cls: CharClass, q: string, k: nat)
    requires k < |q| && !InClass(cls, q[k])
    ensures |q| - |TrimStart(cls, q)| <= k
  {
    var n := |q| - |TrimStart(cls, q)|;
    forall i | 0 <= i < n
      ensures InClass(cls, q[i])
    {
      assert q[..n][i] == q[i];
    }
  }

  /** A string with `p` in front keeps `p` in front after trimming its end, when `p` itself is untouched. */
  lemma TrimAfterPrefix(cls: CharClass, p: string, s: string)
    requires p != [] && !InClass(cls, p[0]) && !InClass(cls, p[|p| - 1])
    requires IsTrimmed(cls, s)
    ensures Trim(cls, p + s) == p + s
  {
    TrimOfTrimmed(cls, p + s);
  }

  /**
   * JavaScript's String.prototype.split(sep) for a one-character separator (and Python's
   * str.split with one): the pieces between separators, at least one, possibly empty.
   */
  function Split(s: string, sep: char): (r: seq<string>)
    ensures |r| >= 1
    ensures forall i :: 0 <= i < |r| ==> sep !in r[i]
  {
    if s == [] then [[]]
    else
      var rest := Split(s[1..], sep);
      if s[0] == sep then [[]] + rest else [[s[0]] + rest[0]] + rest[1..]
  }

  /** Array.prototype.join(sep): the pieces with `sep` between neighbours. */
  function Join(parts: seq<string>, sep: char): string
    requires |parts| >= 1
  {
    if |parts| == 1 then parts[0] else parts[0] + [sep] + Join(parts[1..], sep)
  }

  function Count(s: string, c: char): nat {
    if s == [] then 0 else (if s[0] == c then 1 else 0) + Count(s[1..], c)
  }

  /** Joining the pieces back with the separator gives the original string. */
  lemma {:induction false} JoinSplit(s: string, sep: char)
    ensures Join(Split(s, sep), sep) == s
  {
    if s != [] {
      JoinSplit(s[1..], sep);
      var rest := Split(s[1..], sep);
      if s[0] != sep && |rest| > 1 {
        assert ([s[0]] + rest[0]) + [sep] + Join(rest[1..], sep) == [s[0]] + (rest[0] + [sep] + Join(rest[1..], sep));
      }
    }
  }

  /** Splitting a join of separator-free pieces gives the pieces back. */
  lemma {:induction false} SplitJoin(parts: seq<string>, sep: char)
    requires |parts| >= 1
    requires forall i :: 0 <= i < |parts| ==> sep !in parts[i]
    ensures Split(Join(parts, sep), sep) == parts
  {
    if |parts| == 1 {
      SplitNoSep(parts[0], sep);
    } else {
      SplitJoin(parts[1..], sep);
      SplitPieceThenSep(parts[0], sep, Join(parts[1..], sep));
    }
  }

  lemma {:induction false} SplitNoSep(s: string, sep: char)
    requires sep !in s
    ensures Split(s, sep) == [s]
  {
    if s != [] {
      SplitNoSep(s[1..], sep);
      assert [s[0]] + s[1..] == s;
    }
  }

  lemma {:induction false} SplitPieceThenSep(p: string, sep: char, rest: string)
    requires sep !in p
    ensures Split(p + [sep] + rest, sep) == [p] + Split(rest, sep)
  {
    if p == [] {
      assert p + [sep] + rest == [sep] + rest;
      assert ([sep] + rest)[1..] == rest;
    } else {
      assert (p + [sep] + rest)[1..] == p[1..] + [sep] + rest;
      SplitPieceThenSep(p[1..], sep, rest);
      assert [p[0]] + p[1..] == p;
    }
  }

  /** There is one more piece than there are separators. */
  lemma {:induction false} SplitCount(s: string, sep: char)
    ensures |Split(s, sep)| == Count(s, sep) + 1
  {
    if s != [] {
      SplitCount(s[1..], sep);
    }
  }

  /** The lower-case form of `c` under Unicode case mapping, for Latin-1 characters. */
  function Lower(c: char): char {
    if 'A' <= c <= 'Z' || ('\U{C0}' <= c <= '\U{DE}' && c != '\U{D7}') then
      (c as int + 32) as char
    else c
  }

  /** String.prototype.toLowerCase() / str.lower(), restricted to Latin-1 case pairs. */
  function LowerStr(s: string): (r: string)
    ensures |r| == |s|
  {
    seq(|s|, i requires 0 <= i < |s| => Lower(s[i]))
  }

  predicate IsLowerAlnum(c: char) {
    'a' <= c <= 'z' || '0' <= c <= '9'
  }

  /** No two neighbouring characters are both hyphens. */
  predicate NoDoubleHyphen(s: string) {
    forall i :: 0 <= i < |s| - 1 ==> !(s[i] == '-' && s[i + 1] == '-')
  }

  function DropHyphens(s: string): string {
    if s == [] then [] else (if s[0] == '-' then [] else [s[0]]) + DropHyphens(s[1..])
  }

  /**
   * The regular-expression replacement of `-+` by `-`: each maximal run of hyphens becomes
   * one hyphen. The result has no double hyphen, keeps every other character in order, and
   * starts (ends) with a hyphen exactly when `s` does.
   */
  function CollapseHyphens(s: string): (r: string)
    ensures NoDoubleHyphen(r)
    ensures DropHyphens(r) == DropHyphens(s)
    ensures forall c :: c in r ==> c in s
    ensures |r| <= |s|
    ensures r != [] <==> s != []
    ensures r != [] ==> r[0] == s[0] && r[|r| - 1] == s[|s| - 1]
  {
    if |s| < 2 then s
    else if s[0] == '-' && s[1] == '-' then
      var r := CollapseHyphens(s[1..]);
      assert s[1..][0] == s[1] && s[1..][|s| - 2] == s[|s| - 1];
      assert forall c :: c in s[1..] ==> c in s;
      r
    else
      var rest := CollapseHyphens(s[1..]);
      var r := [s[0]] + rest;
      assert r[1..] == rest && rest[0] == s[1] && rest[|rest| - 1] == s[|s| - 1];
      assert forall i :: 1 <= i < |r| ==> r[i] == rest[i - 1];
      assert DropHyphens(r) == (if s[0] == '-' then [] else [s[0]]) + DropHyphens(rest);
      r
  }

  lemma {:induction false} CollapseOfSingleHyphens(s: string)
    requires NoDoubleHyphen(s)
    ensures CollapseHyphens(s) == s
  {
    if |s| >= 2 {
      CollapseOfSingleHyphens(s[1..]);
    }
  }

  lemma {:induction false} DropHyphensConcat(a: string, b: string)
    ensures DropHyphens(a + b) == DropHyphens(a) + DropHyphens(b)
  {
    if a != [] {
      assert (a + b)[1..] == a[1..] + b;
      DropHyphensConcat(a[1..], b);
    } else {
      assert a + b == b;
    }
  }

  // ---------------------------------------------------------------------------------------
  // Words between hyphens
  // ---------------------------------------------------------------------------------------

  function NonEmptyPieces(parts: seq<string>): seq<string> {
    if parts == [] then []
    else (if parts[0] == [] then [] else [parts[0]]) + NonEmptyPieces(parts[1..])
  }

  /**
   * The words of `s`: the non-empty pieces between its hyphens, in order. Two texts with the
   * same words differ only in how many hyphens separate them and stand at their ends.
   */
  function Words(s: string): seq<string> {
    NonEmptyPieces(Split(s, '-'))
  }

  /**
   * A leading hyphen adds no word; a leading other character starts a new word when the rest
   * is empty or starts with a hyphen, and otherwise joins the first word of the rest.
   */
  lemma WordsHead(s: string)
    requires s != []
    ensures s[0] == '-' ==> Words(s) == Words(s[1..])
    ensures s[0] != '-' && (s[1..] == [] || s[1] == '-') ==> Words(s) == [[s[0]]] + Words(s[1..])
    ensures s[0] != '-' && s[1..] != [] && s[1] != '-' ==>
              Words(s[1..]) != [] && Words(s) == [[s[0]] + Words(s[1..])[0]] + Words(s[1..])[1..]
  {
    var c, x := s[0], s[1..];
    var p := Split(x, '-');
    assert p[0] == [] <==> x == [] || x[0] == '-';
    assert NonEmptyPieces(p) == (if p[0] == [] then [] else [p[0]]) + NonEmptyPieces(p[1..]);
    if c == '-' {
      var q := [[]] + p;
      assert Split(s, '-') == q && q[0] == [] && q[1..] == p;
    } else {
      var q := [[c] + p[0]] + p[1..];
      assert Split(s, '-') == q && q[0] != [] && q[1..] == p[1..];
      assert Words(s) == [[c] + p[0]] + NonEmptyPieces(p[1..]);
      if p[0] == [] {
        assert [c] + p[0] == [c];
      }
    }
  }

  /** Hyphens in front of a text add no word. */
  lemma {:induction false} WordsAfterHyphens(h: string, x: string)
    requires AllIn(Hyphen, h)
    ensures Words(h + x) == Words(x)
  {
    if h != [] {
      assert (h + x)[0] == h[0] && (h + x)[1..] == h[1..] + x;
      WordsAfterHyphens(h[1..], x);
      WordsHead(h + x);
    } else {
      assert h + x == x;
    }
  }

  /** Hyphens after a text add no word. */
  lemma {:induction false} WordsBeforeHyphens(x: string, h: string)
    requires AllIn(Hyphen, h)
    ensures Words(x + h) == Words(x)
  {
    if x == [] {
      assert x + h == h && h == h + [];
      WordsAfterHyphens(h, []);
    } else {
      var s, rest := x + h, x[1..];
      assert s[0] == x[0] && s[1..] == rest + h;
      WordsBeforeHyphens(rest, h);
      WordsHead(x);
      WordsHead(s);
      if rest == [] {
        assert rest + h == h;
      } else {
        assert (rest + h)[0] == rest[0];
      }
    }
  }

  /** Trimming hyphens from both ends keeps the words. */
  lemma TrimHyphensWords(x: string)
    ensures Words(Trim(Hyphen, x)) == Words(x)
  {
    TrimStartHyphensWords(x);
    TrimEndHyphensWords(TrimStart(Hyphen, x));
  }

  lemma {:induction false} TrimStartHyphensWords(x: string)
    ensures Words(TrimStart(Hyphen, x)) == Words(x)
  {
    if x != [] && x[0] == '-' {
      TrimStartHyphensWords(x[1..]);
      WordsHead(x);
    }
  }

  lemma {:induction false} TrimEndHyphensWords(x: string)
    ensures Words(TrimEnd(Hyphen, x)) == Words(x)
  {
    if x != [] && x[|x| - 1] == '-' {
      TrimEndHyphensWords(x[..|x| - 1]);
      WordsBeforeTrailingHyphens(x, |x| - 1);
    }
  }

  lemma WordsBeforeTrailingHyphens(s: string, k: nat)
    requires k <= |s| && AllIn(Hyphen, s[k..])
    ensures Words(s) == Words(s[..k])
  {
    assert s[..k] + s[k..] == s;
    WordsBeforeHyphens(s[..k], s[k..]);
  }

  /** On a text without a hyphen at either end, collapsing gives its words joined by single hyphens. */
  lemma CollapseJoinsWords(s: string)
    requires IsTrimmed(Hyphen, s)
    ensures CollapseHyphens(s) == JoinWords(Words(s))
  {
    CollapseKeepsWords(s);
    SinglyHyphenatedIsJoinedWords(CollapseHyphens(s));
  }

  /** Collapsing hyphen runs keeps the words: each run between two words stays one hyphen. */
  lemma {:induction false} CollapseKeepsWords(s: string)
    ensures Words(CollapseHyphens(s)) == Words(s)
  {
    if |s| >= 2 {
      var x := s[1..];
      CollapseKeepsWords(x);
      var rest := CollapseHyphens(x);
      WordsHead(s);
      if !(s[0] == '-' && s[1] == '-') {
        var r := [s[0]] + rest;
        assert CollapseHyphens(s) == r;
        assert r[0] == s[0] && r[1..] == rest;
        assert rest != [] && rest[0] == x[0];
        WordsHead(r);
      }
    }
  }

  /** The words joined by single hyphens; no words give the empty text. */
  function JoinWords(words: seq<string>): string {
    if words == [] then [] else Join(words, '-')
  }

  lemma {:induction false} NonEmptyPiecesAll(parts: seq<string>)
    requires forall k :: 0 <= k < |parts| ==> parts[k] != []
    ensures NonEmptyPieces(parts) == parts
  {
    if parts != [] {
      NonEmptyPiecesAll(parts[1..]);
      assert [parts[0]] + parts[1..] == parts;
    }
  }

  /** A text with no hyphen at its ends and no double hyphen has no empty piece between hyphens. */
  lemma {:induction false} SinglyHyphenatedPieces(s: string)
    requires s != [] && IsTrimmed(Hyphen, s) && NoDoubleHyphen(s)
    ensures forall k :: 0 <= k < |Split(s, '-')| ==> Split(s, '-')[k] != []
  {
    var x := s[1..];
    var r := Split(x, '-');
    assert Split(s, '-') == [[s[0]] + r[0]] + r[1..];
    if x != [] {
      if x[0] != '-' {
        NoDoubleHyphenSuffix(s, 1);
        SinglyHyphenatedPieces(x);
      } else {
        var y := x[1..];
        assert |s| >= 3 && s[2] != '-';
        assert y == s[2..] && y[0] == s[2] && y[|y| - 1] == s[|s| - 1];
        NoDoubleHyphenSuffix(s, 2);
        SinglyHyphenatedPieces(y);
        assert r == [[]] + Split(y, '-');
        assert r[1..] == Split(y, '-');
      }
    }
  }

  lemma NoDoubleHyphenSuffix(s: string, k: nat)
    requires NoDoubleHyphen(s) && k <= |s|
    ensures NoDoubleHyphen(s[k..])
  {
    var t := s[k..];
    forall i | 0 <= i < |t| - 1
      ensures !(t[i] == '-' && t[i + 1] == '-')
    {
      assert t[i] == s[k + i] && t[i + 1] == s[k + i + 1];
    }
  }

  /**
   * A text with single hyphens only between its words is those words joined by hyphens, so
   * two such texts (two slugs, say) with the same words are equal.
   */
  lemma SinglyHyphenatedIsJoinedWords(s: string)
    requires IsTrimmed(Hyphen, s) && NoDoubleHyphen(s)
    ensures s == JoinWords(Words(s))
  {
    if s != [] {
      SinglyHyphenatedPieces(s);
      NonEmptyPiecesAll(Split(s, '-'));
      JoinSplit(s, '-');
    }
  }

  /** A URL slug: lower-case letters, digits and single hyphens, with no hyphen at either end. */
  predicate IsSlug(s: string) {
    SlugBody(s) && IsTrimmed(Hyphen, s)
  }

  /** Letters, digits and hyphens with no double hyphen: a slug except perhaps at its ends. */
  predicate SlugBody(s: string) {
    (forall i :: 0 <= i < |s| ==> IsLowerAlnum(s[i]) || s[i] == '-') && NoDoubleHyphen(s)
  }

  lemma SlugBodySlice(s: string, i: nat, j: nat)
    requires SlugBody(s) && i <= j <= |s|
    ensures SlugBody(s[i..j])
  {
    var r := s[i..j];
    assert forall k :: 0 <= k < |r| ==> r[k] == s[i + k];
  }

  /** Stripping hyphens from a slug body leaves a slug. */
  lemma TrimHyphensSlug(s: string)
    requires SlugBody(s)
    ensures IsSlug(Trim(Hyphen, s))
  {
    var t := TrimStart(Hyphen, s);
    SlugBodySlice(s, |s| - |t|, |s|);
    SlugBodySlice(t, 0, |TrimEnd(Hyphen, t)|);
  }
}
