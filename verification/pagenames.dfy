/**
 * The naming rules of the Python page generator: the file name a category page is written to
 * (sanitize_filename), the link normalisation it applies while reading the catalogue
 * (normalize_fb_url) and the title and breadcrumb of a page (create_page_html).
 */
module PageNames {
  import opened Text
  import Catalog
  import Slug
  import Menu

  // ---------------------------------------------------------------------------------------
  // sanitize_filename
  // ---------------------------------------------------------------------------------------

  /**
   * The accent table of sanitize_filename as it acts on lower-case text: the upper-case half of
   * the table is applied after the text is lower-cased and the lower-case half has already
   * replaced those letters, so it never matches anything.
   */
  function FoldAccent(c: char): char {
    if '\U{E0}' <= c <= '\U{E5}' then 'a'
    else if '\U{E8}' <= c <= '\U{EB}' then 'e'
    else if '\U{EC}' <= c <= '\U{EF}' then 'i'
    else if '\U{F2}' <= c <= '\U{F6}' then 'o'
    else if '\U{F9}' <= c <= '\U{FC}' then 'u'
    else if c == '\U{E7}' then 'c'
    else if c == '\U{F1}' then 'n'
    else c
  }

  /**
   * What one character becomes after lower-casing, accent replacement and the removal of
   * everything that is not a-z, 0-9 or white space (`[^a-z0-9\s]`).
   */
  function CleanChar(c: char): (r: string)
    ensures |r| <= 1
    ensures r != [] ==> IsLowerAlnum(r[0]) || IsPySpace(r[0])
    ensures IsLowerAlnum(c) || IsPySpace(c) ==> r == [c]
    ensures c == '-' ==> r == []
  {
    var d := FoldAccent(Lower(c));
    if IsLowerAlnum(d) || IsPySpace(d) then [d] else []
  }

  function Clean(s: string): string {
    if s == [] then [] else CleanChar(s[0]) + Clean(s[1..])
  }

  /** What survives the character filter is letters, digits and white space. */
  lemma {:induction false} CleanIsCleaned(s: string)
    ensures Cleaned(Clean(s))
  {
    if s != [] {
      CleanIsCleaned(s[1..]);
      var head := CleanChar(s[0]);
      var tail := Clean(s[1..]);
      assert forall i :: |head| <= i < |head + tail| ==> (head + tail)[i] == tail[i - |head|];
    }
  }

  lemma {:induction false} CleanConcat(a: string, b: string)
    ensures Clean(a + b) == Clean(a) + Clean(b)
  {
    if a == [] {
      assert a + b == b;
    } else {
      assert (a + b)[0] == a[0] && (a + b)[1..] == a[1..] + b;
      CleanConcat(a[1..], b);
    }
  }

  /** The replacement of each maximal run of white space by one hyphen (`\s+` by `-`). */
  function SpaceRuns(s: string): (r: string)
    decreases |s|
  {
    if s == [] then []
    else if IsPySpace(s[0]) then "-" + SpaceRuns(TrimStart(PyWhiteSpace, s[1..]))
    else [s[0]] + SpaceRuns(s[1..])
  }

  predicate Cleaned(s: string) {
    forall i :: 0 <= i < |s| ==> IsLowerAlnum(s[i]) || IsPySpace(s[i])
  }

  predicate Dashed(s: string) {
    forall i :: 0 <= i < |s| ==> IsLowerAlnum(s[i]) || s[i] == '-'
  }

  lemma CleanedSuffix(s: string, k: nat)
    requires Cleaned(s) && k <= |s|
    ensures Cleaned(s[k..])
  {
    assert forall i :: 0 <= i < |s| - k ==> s[k..][i] == s[k + i];
  }

  lemma DashedCons(c: char, s: string)
    requires IsLowerAlnum(c) || c == '-'
    requires Dashed(s)
    ensures Dashed([c] + s)
  {
    assert forall i :: 1 <= i < |s| + 1 ==> ([c] + s)[i] == s[i - 1];
  }

  /** On letters, digits and white space, the run replacement yields letters, digits and hyphens. */
  lemma {:induction false} SpaceRunsChars(s: string)
    requires Cleaned(s)
    ensures Dashed(SpaceRuns(s))
    decreases |s|
  {
    if s != [] {
      CleanedSuffix(s, 1);
      if IsPySpace(s[0]) {
        var rest := TrimStart(PyWhiteSpace, s[1..]);
        CleanedSuffix(s[1..], |s[1..]| - |rest|);
        SpaceRunsChars(rest);
        DashedCons('-', SpaceRuns(rest));
      } else {
        SpaceRunsChars(s[1..]);
        DashedCons(s[0], SpaceRuns(s[1..]));
      }
    }
  }

  /** Letters and digits pass through the run replacement unchanged. */
  lemma {:induction false} SpaceRunsAlnum(x: string, t: string)
    requires forall i :: 0 <= i < |x| ==> IsLowerAlnum(x[i])
    ensures SpaceRuns(x + t) == x + SpaceRuns(t)
  {
    if x == [] {
      assert x + t == t;
    } else {
      var c, rest := x[0], x[1..];
      assert x == [c] + rest;
      assert forall i :: 0 <= i < |rest| ==> rest[i] == x[i + 1];
      assert (x + t)[0] == c && (x + t)[1..] == rest + t;
      assert !IsPySpace(c);
      assert SpaceRuns(x + t) == [c] + SpaceRuns(rest + t);
      SpaceRunsAlnum(rest, t);
      assert [c] + (rest + SpaceRuns(t)) == x + SpaceRuns(t);
    }
  }

  /**
   * The steps of sanitize_filename after the character filter: white-space runs become
   * hyphens, hyphen runs collapse and hyphens are stripped from both ends.
   */
  function Hyphenate(cleaned: string): (r: string)
    requires Cleaned(cleaned)
    ensures IsSlug(r)
  {
    var dashed := SpaceRuns(cleaned);
    SpaceRunsChars(cleaned);
    var collapsed := CollapseHyphens(dashed);
    assert forall i :: 0 <= i < |collapsed| ==> collapsed[i] in dashed;
    TrimHyphensSlug(collapsed);
    Trim(Hyphen, collapsed)
  }

  /** Every white-space character replaced by a hyphen: a reference that ignores runs. */
  function DashSpaces(s: string): (r: string)
    ensures |r| == |s|
  {
    if s == [] then [] else [if IsPySpace(s[0]) then '-' else s[0]] + DashSpaces(s[1..])
  }

  lemma {:induction false} DashSpacesConcat(a: string, b: string)
    ensures DashSpaces(a + b) == DashSpaces(a) + DashSpaces(b)
  {
    if a == [] {
      assert a + b == b;
    } else {
      assert (a + b)[0] == a[0] && (a + b)[1..] == a[1..] + b;
      DashSpacesConcat(a[1..], b);
    }
  }

  lemma {:induction false} DashSpacesOfSpace(p: string)
    requires AllIn(PyWhiteSpace, p)
    ensures AllIn(Hyphen, DashSpaces(p))
  {
    if p != [] {
      DashSpacesOfSpace(p[1..]);
      var d := DashSpaces(p);
      assert d == ['-'] + DashSpaces(p[1..]);
      assert forall i :: 1 <= i < |d| ==> d[i] == DashSpaces(p[1..])[i - 1];
    }
  }

  /**
   * Replacing each white-space run by one hyphen gives the same words as replacing every
   * white-space character by a hyphen.
   */
  lemma {:induction false} SpaceRunsWords(s: string)
    ensures Words(SpaceRuns(s)) == Words(DashSpaces(s))
    decreases |s|
  {
    if s != [] {
      var t := s[1..];
      var r, d := SpaceRuns(s), DashSpaces(s);
      assert d[1..] == DashSpaces(t);
      WordsHead(d);
      if IsPySpace(s[0]) {
        var rest := TrimStart(PyWhiteSpace, t);
        SpaceRunsWords(rest);
        assert r == "-" + SpaceRuns(rest) && r[1..] == SpaceRuns(rest);
        WordsHead(r);
        var p := t[..|t| - |rest|];
        assert t == p + rest;
        DashSpacesConcat(p, rest);
        DashSpacesOfSpace(p);
        WordsAfterHyphens(DashSpaces(p), DashSpaces(rest));
      } else {
        SpaceRunsWords(t);
        assert r == [s[0]] + SpaceRuns(t) && r[0] == d[0] && r[1..] == SpaceRuns(t);
        WordsHead(r);
        SpaceRunsHead(t);
      }
    }
  }

  /** The run replacement and the reference agree on whether the text starts a new word. */
  lemma SpaceRunsHead(t: string)
    ensures SpaceRuns(t) == [] <==> t == []
    ensures t != [] ==> (SpaceRuns(t)[0] == '-' <==> DashSpaces(t)[0] == '-')
  {
  }

  /**
   * Where the hyphens of a file name go: the white-space separated words of the filtered text
   * (which holds no hyphen) joined by single hyphens.
   */
  lemma HyphenateJoinsWords(cleaned: string)
    requires Cleaned(cleaned)
    ensures Hyphenate(cleaned) == JoinWords(Words(DashSpaces(cleaned)))
  {
    var dashed := SpaceRuns(cleaned);
    var collapsed := CollapseHyphens(dashed);
    SpaceRunsWords(cleaned);
    CollapseKeepsWords(dashed);
    TrimHyphensWords(collapsed);
    assert Hyphenate(cleaned) == Trim(Hyphen, collapsed);
    SinglyHyphenatedIsJoinedWords(Hyphenate(cleaned));
  }

  lemma SanitizeJoinsWords(text: string)
    ensures SanitizeFilename(text) == JoinWords(Words(DashSpaces(Clean(text))))
  {
    CleanIsCleaned(text);
    HyphenateJoinsWords(Clean(text));
  }

  /**
   * sanitize_filename: lower-case, replace accents, keep letters, digits and white space, turn
   * white-space runs into hyphens, collapse hyphen runs and strip hyphens from both ends.
   * The result is a slug.
   */
  function SanitizeFilename(text: string): (r: string)
    ensures IsSlug(r)
  {
    CleanIsCleaned(text);
    Hyphenate(Clean(text))
  }

  /**
   * Every hyphen of the text is removed before white space becomes hyphens, so the hyphen that
   * joins two category names in `f"{cat1}-{cat2}"` does not survive.
   */
  lemma SanitizeIgnoresHyphen(a: string, b: string)
    ensures SanitizeFilename(a + "-" + b) == SanitizeFilename(a + b)
  {
    CleanDropsHyphen(a, b);
  }

  lemma CleanDropsHyphen(a: string, b: string)
    ensures Clean(a + "-" + b) == Clean(a + b)
  {
    var l := a + "-";
    CleanConcat(l, b);
    CleanTrailingHyphen(a);
    CleanConcat(a, b);
  }

  lemma CleanTrailingHyphen(a: string)
    ensures Clean(a + "-") == Clean(a)
  {
    CleanConcat(a, "-");
    assert Clean("-") == [];
  }

  /** A non-empty run of lower-case letters and digits. */
  predicate Word(x: string) {
    x != [] && forall i :: 0 <= i < |x| ==> IsLowerAlnum(x[i])
  }

  lemma {:induction false} CleanAlnum(x: string)
    requires Cleaned(x)
    ensures Clean(x) == x
  {
    if x != [] {
      CleanedSuffix(x, 1);
      CleanAlnum(x[1..]);
    }
  }

  /** Lower-case letters and digits are their own file name. */
  lemma SanitizeWord(x: string)
    requires Word(x)
    ensures SanitizeFilename(x) == x
  {
    CleanAlnum(x);
    SpaceRunsAlnum(x, []);
    assert x + [] == x;
    CollapseOfSingleHyphens(x);
    TrimOfTrimmed(Hyphen, x);
  }

  /** Two words joined by one hyphen form a slug. */
  lemma WordsJoined(x: string, y: string)
    requires Word(x) && Word(y)
    ensures IsSlug(x + "-" + y)
  {
    var d := x + "-" + y;
    assert forall i :: 0 <= i < |x| ==> d[i] == x[i];
    assert forall i :: |x| < i < |d| ==> d[i] == y[i - |x| - 1];
  }

  /** A run of white space between two words becomes exactly one hyphen. */
  lemma SanitizeSpaceRun(x: string, w: string, y: string)
    requires Word(x) && Word(y)
    requires w != [] && AllIn(PyWhiteSpace, w)
    ensures SanitizeFilename(x + w + y) == x + "-" + y
  {
    var s := x + w + y;
    var d := x + "-" + y;
    assert s == x + (w + y) && d == x + ("-" + y);
    assert (w + y)[0] == w[0] && (w + y)[1..] == w[1..] + y;
    assert y + [] == y;
    CleanAlnum(s);
    SpaceRunsAlnum(x, w + y);
    TrimStartSkips(PyWhiteSpace, w[1..], y);
    SpaceRunsAlnum(y, []);
    assert SpaceRuns(s) == d;
    WordsJoined(x, y);
    CollapseOfSingleHyphens(d);
    TrimOfTrimmed(Hyphen, d);
  }

  /** The hyphen between two words is dropped from the file name. */
  lemma SanitizeTwoWords(x: string, y: string)
    requires Word(x) && Word(y)
    ensures SanitizeFilename(x + "-" + y) == x + y
  {
    assert Word(x + y) by {
      assert forall i :: |x| <= i < |x + y| ==> (x + y)[i] == y[i - |x|];
    }
    SanitizeIgnoresHyphen(x, y);
    SanitizeWord(x + y);
  }

  /**
   * The file a two-level page is written to is not the one the navigation menu links to: for
   * the words x and y the generator writes `xy.html` while generatePageUrl links to
   * `pages/x-y.html`.
   */
  lemma FileNameIsNotMenuLink(x: string, y: string)
    requires Word(x) && Word(y)
    ensures Menu.GeneratePageUrl(x, y, []) == "pages/" + (x + "-" + y) + ".html"
    ensures "pages/" + SanitizeFilename(x + "-" + y) + ".html" != Menu.GeneratePageUrl(x, y, [])
  {
    MenuLinkOfWords(x, y);
    SanitizeTwoWords(x, y);
    assert |"pages/" + (x + y) + ".html"| != |"pages/" + (x + "-" + y) + ".html"|;
  }

  lemma MenuLinkOfWords(x: string, y: string)
    requires Word(x) && Word(y)
    ensures Menu.GeneratePageUrl(x, y, []) == "pages/" + (x + "-" + y) + ".html"
  {
    WordIsSlug(x);
    WordIsSlug(y);
    Slug.GenerateSlugOfSlugs(x, y);
  }

  lemma WordIsSlug(x: string)
    requires Word(x)
    ensures IsSlug(x)
  {
    assert forall i :: 0 <= i < |x| ==> x[i] != '-';
  }

  /**
   * Distinct categories can share a file name, so a later page overwrites an earlier one: for
   * words x, y and z, ("xy", "z") and ("x", "yz") are both written to `xyz.html`.
   */
  lemma SharedFileName(x: string, y: string, z: string)
    ensures SanitizeFilename((x + y) + "-" + z) == SanitizeFilename(x + "-" + (y + z))
  {
    calc {
      SanitizeFilename((x + y) + "-" + z);
      { SanitizeIgnoresHyphen(x + y, z); }
      SanitizeFilename((x + y) + z);
      { assert (x + y) + z == x + (y + z); }
      SanitizeFilename(x + (y + z));
      { SanitizeIgnoresHyphen(x, y + z); }
      SanitizeFilename(x + "-" + (y + z));
    }
  }

  /**
   * The Python accent table also folds n-tilde, which the JavaScript slug table does not: "Ñ"
   * names the file `n.html` while the slug pipeline turns the letter into a hyphen.
   */
  lemma TildeFolded()
    ensures CleanChar('\U{D1}') == "n" && Slug.SlugChar('\U{D1}') == '-'
    ensures SanitizeFilename("\U{D1}") == "n"
  {
    assert Lower('\U{D1}') == '\U{F1}' && FoldAccent('\U{F1}') == 'n';
    assert Slug.FoldAccentJs('\U{F1}') == '\U{F1}' && !IsLowerAlnum('\U{F1}');
    var t, n: string := ['\U{D1}'], ['n'];
    assert Word(n);
    assert Clean(t) == CleanChar(t[0]) + Clean([]) == n;
    assert Clean(n) == CleanChar(n[0]) + Clean([]) == n;
    SameCleanSameName(t, n);
    SanitizeWord(n);
  }

  /** The file name depends on the text only through its filtered characters. */
  lemma SameCleanSameName(a: string, b: string)
    requires Clean(a) == Clean(b)
    ensures SanitizeFilename(a) == SanitizeFilename(b)
  {
  }

  // ---------------------------------------------------------------------------------------
  // normalize_fb_url
  // ---------------------------------------------------------------------------------------

  /**
   * normalize_fb_url: the empty link stays empty; any other is stripped of Python white space
   * and given a scheme by the same prefix rules as the JavaScript normalizeFBUrl.
   */
  function NormalizeFbUrl(url: string): (r: string)
    ensures r == [] <==> url == []
    ensures url != [] ==> "http" <= r && IsTrimmed(PyWhiteSpace, r)
    ensures url != [] ==> EndsWith(r, Trim(PyWhiteSpace, url))
    ensures url != [] && "http" <= Trim(PyWhiteSpace, url) ==> r == Trim(PyWhiteSpace, url)
    ensures url != [] ==> r == Catalog.WithScheme(Trim(PyWhiteSpace, url))
  {
    if url == [] then []
    else
      var t := Trim(PyWhiteSpace, url);
      Catalog.WithSchemeTrimmed(PyWhiteSpace, t);
      var r := Catalog.WithScheme(t);
      assert |r| >= 4;
      r
  }

  lemma NormalizeFbUrlIdempotent(url: string)
    ensures NormalizeFbUrl(NormalizeFbUrl(url)) == NormalizeFbUrl(url)
  {
    var r := NormalizeFbUrl(url);
    if r != [] {
      TrimOfTrimmed(PyWhiteSpace, r);
    }
  }

  /**
   * The two normalisations agree on every link none of whose characters is white space to one
   * language and not to the other.
   */
  lemma NormalizeFbUrlsAgree(url: string)
    requires forall i :: 0 <= i < |url| ==> (IsJsSpace(url[i]) <==> IsPySpace(url[i]))
    ensures NormalizeFbUrl(url) == Catalog.NormalizeFbUrl(url)
  {
    TrimAgree(PyWhiteSpace, JsWhiteSpace, url);
  }

  /**
   * A byte-order mark is white space to JavaScript only: it survives the Python normalisation
   * and is dropped by the JavaScript one.
   */
  lemma NormalizeFbUrlsDiffer()
    ensures NormalizeFbUrl("\U{FEFF}x") == "https://www.facebook.com/" + "\U{FEFF}x"
    ensures Catalog.NormalizeFbUrl("\U{FEFF}x") == "https://www.facebook.com/" + "x"
  {
    var u: string := "\U{FEFF}x";
    assert u == [u[0]] + "x";
    assert "x" == ['x'] + [];
    assert !IsPySpace(u[0]) && !IsPySpace(u[1]);
    TrimOfTrimmed(PyWhiteSpace, u);
    JsDropsByteOrderMark();
    Catalog.HandleGetsPagePrefix(u);
    Catalog.HandleGetsPagePrefix("x");
  }

  lemma JsDropsByteOrderMark()
    ensures Trim(JsWhiteSpace, "\U{FEFF}x") == "x"
  {
    var x: string := "x";
    assert "\U{FEFF}x" == ['\U{FEFF}'] + x;
    assert IsJsSpace('\U{FEFF}') && !IsJsSpace(x[0]);
    TrimSkipsLead(JsWhiteSpace, '\U{FEFF}', x);
    TrimOfTrimmed(JsWhiteSpace, x);
  }

  // ---------------------------------------------------------------------------------------
  // create_page_html: title and breadcrumb
  // ---------------------------------------------------------------------------------------

  datatype Heading = Heading(title: string, breadcrumb: string)

  /**
   * The title of a page is its deepest category and the breadcrumb lists the categories from
   * the top, separated by " > ".
   */
  function PageHeading(c1: string, c2: string, c3: string): (h: Heading)
    ensures h.title == (if c3 != [] then c3 else c2)
    ensures c1 + " > " + c2 <= h.breadcrumb
    ensures EndsWith(h.breadcrumb, h.title)
    ensures h.breadcrumb == c1 + " > " + c2 + (if c3 != [] then " > " + c3 else [])
  {
    if c3 != [] then
      var b := c1 + " > " + c2 + " > " + c3;
      assert b == (c1 + " > " + c2) + (" > " + c3);
      Heading(c3, b)
    else Heading(c2, c1 + " > " + c2)
  }

  /**
   * A generated page carries the same title and breadcrumb as the JavaScript listing of the
   * same category.
   */
  lemma HeadingMatchesListing(t: Catalog.Tree, c1: string, c2: string, c3: string)
    requires Catalog.GetCategoryItems(t, c1, c2, c3).Some?
    ensures PageHeading(c1, c2, c3).title == Catalog.GetCategoryItems(t, c1, c2, c3).value.title
    ensures PageHeading(c1, c2, c3).breadcrumb == Catalog.GetCategoryItems(t, c1, c2, c3).value.breadcrumb
  {
  }
}
