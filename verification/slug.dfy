/**
 * Page slugs of the directory (js/data.js): the slug of a category path, and the brute-force
 * search that maps a slug back to a path of the category tree.
 */
module Slug {
  import opened Wrappers
  import opened Text
  import opened Assoc
  import opened Catalog

  // ---------------------------------------------------------------------------------------
  // The encoder
  // ---------------------------------------------------------------------------------------

  /** The six accent replacements of generateSlug: à-å, è-ë, ì-ï, ò-ö, ù-ü and ç. */
  function FoldAccentJs(c: char): char {
    if '\U{E0}' <= c <= '\U{E5}' then 'a'
    else if '\U{E8}' <= c <= '\U{EB}' then 'e'
    else if '\U{EC}' <= c <= '\U{EF}' then 'i'
    else if '\U{F2}' <= c <= '\U{F6}' then 'o'
    else if '\U{F9}' <= c <= '\U{FC}' then 'u'
    else if c == '\U{E7}' then 'c'
    else c
  }

  /**
   * What the character-wise steps of the pipeline make of one character: lower-cased, accent
   * folded, and replaced by a hyphen unless it is then a lower-case letter or digit.
   */
  function SlugChar(c: char): (d: char)
    ensures IsLowerAlnum(d) || d == '-'
    ensures IsLowerAlnum(c) || c == '-' ==> d == c
  {
    var f := FoldAccentJs(Lower(c));
    if IsLowerAlnum(f) then f else '-'
  }

  function SlugChars(s: string): (r: string)
    ensures |r| == |s| && forall i :: 0 <= i < |s| ==> r[i] == SlugChar(s[i])
    ensures forall c :: c in r ==> IsLowerAlnum(c) || c == '-'
  {
    seq(|s|, i requires 0 <= i < |s| => SlugChar(s[i]))
  }

  lemma SlugCharsConcat(a: string, b: string)
    ensures SlugChars(a + b) == SlugChars(a) + SlugChars(b)
  {
  }

  /**
   * The final replacement `^-|-$` by nothing: one hyphen goes from each end. On a string
   * without double hyphens this leaves no hyphen at either end.
   */
  function TrimEdgeHyphen(s: string): (r: string)
    requires NoDoubleHyphen(s)
    ensures NoDoubleHyphen(r) && IsTrimmed(Hyphen, r)
    ensures DropHyphens(r) == DropHyphens(s)
    ensures forall c :: c in r ==> c in s
  {
    var a := if s != [] && s[0] == '-' then s[1..] else s;
    assert DropHyphens(a) == DropHyphens(s) by {
      if s != [] && s[0] == '-' {
        DropHyphensConcat([s[0]], s[1..]);
        assert [s[0]] + s[1..] == s;
      }
    }
    assert a == [] || a[0] != '-';
    if a != [] && a[|a| - 1] == '-' then
      var r := a[..|a| - 1];
      DropHyphensConcat(r, [a[|a| - 1]]);
      assert r + [a[|a| - 1]] == a;
      r
    else a
  }

  /** The whole pipeline of generateSlug applied to the joined text. */
  function Slugify(s: string): (r: string)
    ensures IsSlug(r)
    ensures DropHyphens(r) == DropHyphens(SlugChars(s))
  {
    var r := TrimEdgeHyphen(CollapseHyphens(SlugChars(s)));
    assert forall i :: 0 <= i < |r| ==> r[i] in r;
    r
  }

  /** Dropping one edge hyphen at each end keeps the words. */
  lemma TrimEdgeHyphenWords(s: string)
    requires NoDoubleHyphen(s)
    ensures Words(TrimEdgeHyphen(s)) == Words(s)
  {
    var a := if s != [] && s[0] == '-' then s[1..] else s;
    if s != [] && s[0] == '-' {
      WordsHead(s);
    }
    if a != [] && a[|a| - 1] == '-' {
      WordsBeforeTrailingHyphens(a, |a| - 1);
    }
  }

  /**
   * Where the hyphens of a slug go: the slug of a text is the words of its character-wise
   * image, the maximal runs of characters that become letters or digits, joined by single
   * hyphens.
   */
  lemma SlugifyJoinsWords(s: string)
    ensures Words(Slugify(s)) == Words(SlugChars(s))
    ensures Slugify(s) == JoinWords(Words(SlugChars(s)))
  {
    var c := CollapseHyphens(SlugChars(s));
    CollapseKeepsWords(SlugChars(s));
    TrimEdgeHyphenWords(c);
    SinglyHyphenatedIsJoinedWords(Slugify(s));
  }

  /** When the character-wise steps already give a slug, the rest of the pipeline keeps it. */
  lemma SlugifyOfSlugChars(s: string)
    requires IsSlug(SlugChars(s))
    ensures Slugify(s) == SlugChars(s)
  {
    CollapseOfSingleHyphens(SlugChars(s));
  }

  /** A slug is its own slug, so slugifying twice is slugifying once. */
  lemma SlugifyOfSlug(s: string)
    requires IsSlug(s)
    ensures Slugify(s) == s
  {
    assert SlugChars(s) == s;
    SlugifyOfSlugChars(s);
  }

  lemma SlugifyIdempotent(s: string)
    ensures Slugify(Slugify(s)) == Slugify(s)
  {
    SlugifyOfSlug(Slugify(s));
  }

  /** generateSlug: the parts joined by hyphens (category 3 only when non-empty), then slugified. */
  function GenerateSlug(c1: string, c2: string, c3: string): (r: string)
    ensures IsSlug(r)
  {
    Slugify(SlugSource(c1, c2, c3))
  }

  /** Joining with a hyphen adds nothing but the hyphen. */
  lemma JoinedContent(x: string, y: string)
    ensures DropHyphens(SlugChars(x + "-" + y)) == DropHyphens(SlugChars(x)) + DropHyphens(SlugChars(y))
  {
    SlugCharsConcat(x + "-", y);
    SlugCharsConcat(x, "-");
    DropHyphensConcat(SlugChars(x + "-"), SlugChars(y));
    DropHyphensConcat(SlugChars(x), SlugChars("-"));
  }

  /** The text generateSlug slugifies: the parts joined by hyphens. */
  function SlugSource(c1: string, c2: string, c3: string): (j: string)
    ensures j == if c3 != [] then c1 + "-" + (c2 + "-" + c3) else c1 + "-" + c2
  {
    if c3 != [] then
      assert [c1, c2, c3][1..] == [c2, c3] && [c2, c3][1..] == [c3];
      assert Join([c2, c3], '-') == c2 + "-" + c3;
      Join([c1, c2, c3], '-')
    else
      assert [c1, c2][1..] == [c2];
      assert Join([c2], '-') == c2;
      Join([c1, c2], '-')
  }

  /**
   * The letters and digits of a slug are those of the three parts after lower-casing and
   * accent folding, in order: only hyphens are added or removed.
   */
  lemma GenerateSlugContent(c1: string, c2: string, c3: string)
    ensures DropHyphens(GenerateSlug(c1, c2, c3))
            == DropHyphens(SlugChars(c1)) + DropHyphens(SlugChars(c2)) + DropHyphens(SlugChars(c3))
  {
    var j := SlugSource(c1, c2, c3);
    assert DropHyphens(GenerateSlug(c1, c2, c3)) == DropHyphens(SlugChars(j));
    if c3 != [] {
      var tail := c2 + "-" + c3;
      assert j == c1 + "-" + tail;
      JoinedContent(c1, tail);
      JoinedContent(c2, c3);
    } else {
      JoinedContent(c1, c2);
      assert DropHyphens(SlugChars(c3)) == [];
    }
  }

  /** Two parts that are already slugs are joined by a single hyphen. */
  lemma GenerateSlugOfSlugs(c1: string, c2: string)
    requires IsSlug(c1) && IsSlug(c2) && c1 != [] && c2 != []
    ensures GenerateSlug(c1, c2, []) == c1 + "-" + c2
  {
    var j := c1 + "-" + c2;
    assert forall i :: 0 <= i < |j| ==> IsLowerAlnum(j[i]) || j[i] == '-' by {
      forall i | 0 <= i < |j| ensures IsLowerAlnum(j[i]) || j[i] == '-' {
        if i < |c1| { assert j[i] == c1[i]; }
        else if i > |c1| { assert j[i] == c2[i - |c1| - 1]; }
      }
    }
    assert NoDoubleHyphen(j) by {
      forall i | 0 <= i < |j| - 1 ensures !(j[i] == '-' && j[i + 1] == '-') {
        if i < |c1| - 1 { assert j[i] == c1[i] && j[i + 1] == c1[i + 1]; }
        else if i == |c1| - 1 { assert j[i] == c1[|c1| - 1]; }
        else if i == |c1| { assert j[i + 1] == c2[0]; }
        else { assert j[i] == c2[i - |c1| - 1] && j[i + 1] == c2[i - |c1|]; }
      }
    }
    assert j[0] == c1[0] && j[|j| - 1] == c2[|c2| - 1];
    SlugifyOfSlug(j);
  }

  /** An example: accents fold and capitals fall, `("Café", "Bar", "")` gives `cafe-bar`. */
  lemma GenerateSlugExample()
    ensures GenerateSlug("Caf\U{E9}", "Bar", "") == "cafe-bar"
  {
    var src := SlugSource("Caf\U{E9}", "Bar", "");
    assert src == "Caf\U{E9}-Bar";
    ExampleChars();
    ExampleIsSlug();
    SlugifyOfSlugChars(src);
  }

  lemma ExampleChars()
    ensures SlugChars("Caf\U{E9}-Bar") == "cafe-bar"
  {
    var m := SlugChars("Caf\U{E9}-Bar");
    assert SlugChar('C') == 'c' && SlugChar('\U{E9}') == 'e' && SlugChar('B') == 'b';
    assert m[0] == 'c' && m[1] == 'a' && m[2] == 'f' && m[3] == 'e';
    assert m[4] == '-' && m[5] == 'b' && m[6] == 'a' && m[7] == 'r';
  }

  lemma ExampleIsSlug()
    ensures IsSlug("cafe-bar")
  {
    var s: string := "cafe-bar";
    assert |s| == 8 && s[4] == '-';
    assert forall i :: 0 <= i < |s| && i != 4 ==> IsLowerAlnum(s[i]);
  }

  // ---------------------------------------------------------------------------------------
  // The decoder
  // ---------------------------------------------------------------------------------------

  /** A page of the tree: category 1, category 2, and category 3 or "" for the node's own page. */
  datatype Path = Path(cat1: string, cat2: string, cat3: string)

  function PathSlug(p: Path): string {
    GenerateSlug(p.cat1, p.cat2, p.cat3)
  }

  /** Some entry of `m` has key c2, and c3 is "" or a category-3 key of that entry's node. */
  ghost predicate InCat1(m: Cat1Map, c2: string, c3: string) {
    m != [] && ((m[0].0 == c2 && (c3 == [] || c3 in Keys(m[0].1.subcategories))) || InCat1(m[1..], c2, c3))
  }

  /** `p` is a page of `t`: a path through its entries. */
  ghost predicate InTree(t: Tree, p: Path) {
    t != [] && ((t[0].0 == p.cat1 && InCat1(t[0].1, p.cat2, p.cat3)) || InTree(t[1..], p))
  }

  /** The innermost loop of parseSlug: the first category 3 in `keys` whose slug is `s`. */
  function FindCat3(c1: string, c2: string, keys: seq<string>, s: string): (r: Option<string>)
    ensures r.Some? ==> r.value in keys && GenerateSlug(c1, c2, r.value) == s
    ensures r.None? <==> forall k :: k in keys ==> GenerateSlug(c1, c2, k) != s
  {
    if keys == [] then None
    else if GenerateSlug(c1, c2, keys[0]) == s then Some(keys[0])
    else FindCat3(c1, c2, keys[1..], s)
  }

  /**
   * The middle loop of parseSlug over the categories 2 of c1: for each, its categories 3 are
   * tried first, then the slug of the node itself.
   */
  function FindInCat1(c1: string, m: Cat1Map, s: string): (r: Option<Path>)
    ensures r.Some? ==> r.value.cat1 == c1 && InCat1(m, r.value.cat2, r.value.cat3) && PathSlug(r.value) == s
    ensures r.None? ==> forall c2, c3 :: InCat1(m, c2, c3) ==> GenerateSlug(c1, c2, c3) != s
  {
    if m == [] then None
    else
      var c2, node := m[0].0, m[0].1;
      match FindCat3(c1, c2, Keys(node.subcategories), s)
      case Some(c3) => Some(Path(c1, c2, c3))
      case None =>
        if GenerateSlug(c1, c2, []) == s then Some(Path(c1, c2, []))
        else FindInCat1(c1, m[1..], s)
  }

  /**
   * parseSlug: the first path of the tree, in key order, whose slug is `s`. It finds one
   * exactly when some path of the tree has that slug, and what it finds is such a path.
   */
  function ParseSlug(s: string, t: Tree): (r: Option<Path>)
    ensures r.Some? ==> InTree(t, r.value) && PathSlug(r.value) == s
    ensures r.None? <==> forall p :: InTree(t, p) ==> PathSlug(p) != s
  {
    if t == [] then None
    else
      match FindInCat1(t[0].0, t[0].1, s)
      case Some(p) => Some(p)
      case None => ParseSlug(s, t[1..])
  }

  lemma {:induction false} InCat1Key(m: Cat1Map, c2: string, c3: string)
    ensures InCat1(m, c2, c3) ==> c2 in Keys(m)
  {
    if m != [] {
      InCat1Key(m[1..], c2, c3);
    }
  }

  lemma NoDupTail<V>(m: AList<V>)
    requires m != [] && NoDupKeys(m)
    ensures NoDupKeys(m[1..]) && m[0].0 !in Keys(m[1..])
  {
    forall j | 0 <= j < |m[1..]|
      ensures Keys(m[1..])[j] != m[0].0
    {
      assert m[1..][j] == m[j + 1];
    }
  }

  lemma KeysNonEmpty(node: Cat2Node)
    requires WellFormedNode(node)
    ensures forall k :: k in Keys(node.subcategories) ==> k != []
  {
    forall k | k in Keys(node.subcategories)
      ensures k != []
    {
      var i :| 0 <= i < |node.subcategories| && Keys(node.subcategories)[i] == k;
      assert node.subcategories[i] in node.subcategories;
    }
  }

  /** With distinct category-2 keys, a path through `m` is a path through its looked-up node. */
  lemma {:induction false} InCat1Iff(m: Cat1Map, c2: string, c3: string)
    requires NoDupKeys(m)
    ensures InCat1(m, c2, c3) <==> Get(m, c2).Some? && (c3 == [] || c3 in Keys(Get(m, c2).value.subcategories))
  {
    if m != [] {
      NoDupTail(m);
      InCat1Iff(m[1..], c2, c3);
      InCat1Key(m[1..], c2, c3);
    }
  }

  /**
   * In a well-formed tree (such as the one getCategories builds) the paths are exactly the
   * existing nodes (c1, c2) with c3 either "" or one of the node's category-3 keys.
   */
  lemma {:induction false} InTreeIff(t: Tree, p: Path)
    requires WellFormedTree(t)
    ensures InTree(t, p) <==>
              NodeAt(t, p.cat1, p.cat2).Some?
              && (p.cat3 == [] || p.cat3 in Keys(NodeAt(t, p.cat1, p.cat2).value.subcategories))
  {
    if t != [] {
      NoDupTail(t);
      assert t[0] in t;
      InCat1Iff(t[0].1, p.cat2, p.cat3);
      assert WellFormedTree(t[1..]) by {
        forall q | q in t[1..] ensures WellFormedCat1(q.1) {
          assert q in t;
        }
      }
      InTreeIff(t[1..], p);
      InTreeKey(t[1..], p);
    }
  }

  lemma {:induction false} InTreeKey(t: Tree, p: Path)
    ensures InTree(t, p) ==> p.cat1 in Keys(t)
  {
    if t != [] {
      InTreeKey(t[1..], p);
    }
  }

  /** Every node of a well-formed tree can be reached from the slug of its own page. */
  lemma ParseSlugReachesNode(t: Tree, c1: string, c2: string)
    requires WellFormedTree(t) && NodeAt(t, c1, c2).Some?
    ensures ParseSlug(GenerateSlug(c1, c2, []), t).Some?
  {
    InTreeIff(t, Path(c1, c2, []));
  }

  /**
   * Whatever parseSlug finds in the tree getCategories built has a listing, and that listing
   * holds the entries filed under the found path, in entry order.
   */
  lemma ParseSlugHasListing(data: seq<Entry>, s: string)
    requires ParseSlug(s, BuildTree(data)).Some?
    ensures var p := ParseSlug(s, BuildTree(data)).value;
            GetCategoryItems(BuildTree(data), p.cat1, p.cat2, p.cat3).Some?
            && GetCategoryItems(BuildTree(data), p.cat1, p.cat2, p.cat3).value.items
               == EntriesAt(data, p.cat1, p.cat2, p.cat3)
  {
    var p := ParseSlug(s, BuildTree(data)).value;
    BuildTreeWellFormed(data);
    InTreeIff(BuildTree(data), p);
    CategoryItemsOfEntries(data, p.cat1, p.cat2, p.cat3);
  }

  /** The tree is searched in key order: the earlier part of the tree wins. */
  lemma {:induction false} ParseSlugConcat(s: string, t1: Tree, t2: Tree)
    ensures ParseSlug(s, t1 + t2) == if ParseSlug(s, t1).Some? then ParseSlug(s, t1) else ParseSlug(s, t2)
  {
    if t1 != [] {
      assert (t1 + t2)[0] == t1[0] && (t1 + t2)[1..] == t1[1..] + t2;
      ParseSlugConcat(s, t1[1..], t2);
    } else {
      assert t1 + t2 == t2;
    }
  }

  /** The category-3 keys are tried in order: the earlier keys win. */
  lemma {:induction false} FindCat3Concat(c1: string, c2: string, k1: seq<string>, k2: seq<string>, s: string)
    ensures FindCat3(c1, c2, k1 + k2, s)
            == if FindCat3(c1, c2, k1, s).Some? then FindCat3(c1, c2, k1, s) else FindCat3(c1, c2, k2, s)
  {
    if k1 != [] {
      assert (k1 + k2)[0] == k1[0] && (k1 + k2)[1..] == k1[1..] + k2;
      FindCat3Concat(c1, c2, k1[1..], k2, s);
    } else {
      assert k1 + k2 == k2;
    }
  }

  /** The innermost loop returns the first matching key: a match with no match before it. */
  lemma FindCat3First(c1: string, c2: string, keys: seq<string>, s: string, i: nat)
    requires i < |keys| && GenerateSlug(c1, c2, keys[i]) == s
    requires forall j :: 0 <= j < i ==> GenerateSlug(c1, c2, keys[j]) != s
    ensures FindCat3(c1, c2, keys, s) == Some(keys[i])
  {
    NoMatchBefore(c1, c2, keys, s, i);
    assert keys == keys[..i] + keys[i..];
    MatchAfterMiss(c1, c2, keys[..i], keys[i..], s);
  }

  lemma NoMatchBefore(c1: string, c2: string, keys: seq<string>, s: string, i: nat)
    requires i <= |keys|
    requires forall j :: 0 <= j < i ==> GenerateSlug(c1, c2, keys[j]) != s
    ensures FindCat3(c1, c2, keys[..i], s).None?
  {
    forall k | k in keys[..i]
      ensures GenerateSlug(c1, c2, k) != s
    {
      var j :| 0 <= j < i && keys[..i][j] == k;
    }
  }

  lemma MatchAfterMiss(c1: string, c2: string, before: seq<string>, rest: seq<string>, s: string)
    requires FindCat3(c1, c2, before, s).None?
    requires rest != [] && GenerateSlug(c1, c2, rest[0]) == s
    ensures FindCat3(c1, c2, before + rest, s) == Some(rest[0])
  {
    FindCat3Concat(c1, c2, before, rest, s);
  }

  /** The categories 2 of c1 are tried in order: the earlier entries win. */
  lemma {:induction false} FindInCat1Concat(c1: string, m1: Cat1Map, m2: Cat1Map, s: string)
    ensures FindInCat1(c1, m1 + m2, s)
            == if FindInCat1(c1, m1, s).Some? then FindInCat1(c1, m1, s) else FindInCat1(c1, m2, s)
  {
    if m1 != [] {
      assert (m1 + m2)[0] == m1[0] && (m1 + m2)[1..] == m1[1..] + m2;
      FindInCat1Concat(c1, m1[1..], m2, s);
    } else {
      assert m1 + m2 == m2;
    }
  }

  /**
   * Within one category 2 the category-3 pages are tried before the node's own page: when
   * the middle loop settles on the node's own page, no category 3 of that node has the slug.
   */
  lemma {:induction false} FindInCat1PrefersCat3(c1: string, m: Cat1Map, s: string, c2: string)
    requires WellFormedCat1(m) && FindInCat1(c1, m, s) == Some(Path(c1, c2, []))
    ensures Get(m, c2).Some?
    ensures forall k :: k in Keys(Get(m, c2).value.subcategories) ==> GenerateSlug(c1, c2, k) != s
  {
    assert m[0] in m;
    var node := m[0].1;
    KeysNonEmpty(node);
    if m[0].0 != c2 {
      NoDupTail(m);
      assert WellFormedCat1(m[1..]) by {
        forall q | q in m[1..] ensures q.0 != [] && WellFormedNode(q.1) {
          assert q in m;
        }
      }
      FindInCat1PrefersCat3(c1, m[1..], s, c2);
    }
  }

  /** The same, for the whole search: a result without category 3 means no category 3 of it matched. */
  lemma {:induction false} ParseSlugPrefersCat3(s: string, t: Tree)
    requires WellFormedTree(t) && ParseSlug(s, t).Some? && ParseSlug(s, t).value.cat3 == []
    ensures NodeAt(t, ParseSlug(s, t).value.cat1, ParseSlug(s, t).value.cat2).Some?
    ensures forall k :: k in Keys(NodeAt(t, ParseSlug(s, t).value.cat1, ParseSlug(s, t).value.cat2).value.subcategories)
                        ==> GenerateSlug(ParseSlug(s, t).value.cat1, ParseSlug(s, t).value.cat2, k) != s
  {
    var p := ParseSlug(s, t).value;
    assert t[0] in t;
    var f := FindInCat1(t[0].0, t[0].1, s);
    NoDupTail(t);
    if f.Some? {
      assert p == f.value && p.cat1 == t[0].0;
      FindInCat1PrefersCat3(t[0].0, t[0].1, s, p.cat2);
    } else {
      assert WellFormedTree(t[1..]) by {
        forall q | q in t[1..] ensures WellFormedCat1(q.1) {
          assert q in t;
        }
      }
      ParseSlugPrefersCat3(s, t[1..]);
      InTreeKey(t[1..], p);
    }
  }

  lemma LetterSlugs(x: char, y: char)
    requires IsLowerAlnum(x) && IsLowerAlnum(y)
    ensures IsSlug([x]) && IsSlug([x, '-', y])
  {
  }

  /**
   * Two paths with the same slug: for letters or digits x, y and z, both ("x-y", "z") and
   * ("x", "y-z") give "x-y-z" (for instance "a-b-c").
   */
  lemma CollidingSlugs(x: char, y: char, z: char)
    requires IsLowerAlnum(x) && IsLowerAlnum(y) && IsLowerAlnum(z)
    ensures GenerateSlug([x, '-', y], [z], []) == [x, '-', y, '-', z]
    ensures GenerateSlug([x], [y, '-', z], []) == [x, '-', y, '-', z]
  {
    assert [x, '-', y] + "-" + [z] == [x, '-', y, '-', z];
    assert [x] + "-" + [y, '-', z] == [x, '-', y, '-', z];
    LetterSlugs(x, y);
    LetterSlugs(z, z);
    GenerateSlugOfSlugs([x, '-', y], [z]);
    LetterSlugs(y, z);
    GenerateSlugOfSlugs([x], [y, '-', z]);
  }

  /**
   * Different paths can share a slug, and only the first is reachable: in this tree the page
   * ("x", "y-z") has the slug "x-y-z", but parseSlug returns ("x-y", "z") for it.
   */
  lemma SlugCollision(x: char, y: char, z: char)
    requires IsLowerAlnum(x) && IsLowerAlnum(y) && IsLowerAlnum(z)
    ensures var t: Tree := [([x, '-', y], [([z], EmptyNode)]), ([x], [([y, '-', z], EmptyNode)])];
            InTree(t, Path([x], [y, '-', z], [])) && PathSlug(Path([x], [y, '-', z], [])) == [x, '-', y, '-', z]
            && ParseSlug([x, '-', y, '-', z], t) == Some(Path([x, '-', y], [z], []))
  {
    CollidingSlugs(x, y, z);
    FoundFirst(x, y, z);
    SecondInTree([x, '-', y], [([z], EmptyNode)], [x], [y, '-', z]);
  }

  lemma SecondInTree(a: string, m1: Cat1Map, b: string, c2: string)
    ensures InTree([(a, m1), (b, [(c2, EmptyNode)])], Path(b, c2, []))
  {
    var t: Tree := [(a, m1), (b, [(c2, EmptyNode)])];
    assert InCat1([(c2, EmptyNode)], c2, []);
    assert t[1..] == [(b, [(c2, EmptyNode)])];
  }

  lemma FoundFirst(x: char, y: char, z: char)
    requires GenerateSlug([x, '-', y], [z], []) == [x, '-', y, '-', z]
    ensures FindInCat1([x, '-', y], [([z], EmptyNode)], [x, '-', y, '-', z]) == Some(Path([x, '-', y], [z], []))
  {
    assert Keys(EmptyNode.subcategories) == [];
  }
}
