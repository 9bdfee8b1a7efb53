/**
 * The catalogue core of the directory pages (js/data.js): reading the semicolon-separated
 * catalogue into entries, normalising page links, folding the entries into the three-level
 * category tree that the page keeps in its module-level cache, and looking up one category.
 */
module Catalog {
  import opened Wrappers
  import opened Text
  import opened Assoc
  import opened CsvLine

  /** One catalogue row that survived parsing. */
  datatype Entry = Entry(categorie1: string, categorie2: string, categorie3: string, nom: string, lien: string)

  /** What the tree stores for an entry: its name and its link. */
  datatype Item = Item(nom: string, lien: string)

  /** A category-2 node: lists keyed by category 3, and the items that have no category 3. */
  datatype Cat2Node = Cat2Node(subcategories: AList<seq<Item>>, items: seq<Item>)

  type Cat1Map = AList<Cat2Node>

  /** category 1 -> category 2 -> node, each level in first-seen order. */
  type Tree = AList<Cat1Map>

  const EmptyNode := Cat2Node([], [])

  // ---------------------------------------------------------------------------------------
  // Link normalisation
  // ---------------------------------------------------------------------------------------

  /**
   * The scheme rule applied to a trimmed link: a link already starting with `http` is kept;
   * `facebook.com…`, `www.facebook.com…` and `fb.me…` get `https://` in front; anything else
   * is taken as a page handle under `https://www.facebook.com/`. The result starts with `http`
   * and ends with the link.
   */
  function WithScheme(u: string): (r: string)
    ensures "http" <= r
    ensures EndsWith(r, u)
    ensures r == u <==> "http" <= u
    ensures !("http" <= u) && FacebookHost(u) ==> r == "https://" + u
    ensures !("http" <= u) && !FacebookHost(u) ==> r == "https://www.facebook.com/" + u
  {
    if "http" <= u then u
    else if "facebook.com" <= u || "www.facebook.com" <= u then "https://" + u
    else if "fb.me" <= u then "https://" + u
    else "https://www.facebook.com/" + u
  }

  /** A link naming a Facebook host, which only lacks its scheme. */
  predicate FacebookHost(u: string) {
    "facebook.com" <= u || "www.facebook.com" <= u || "fb.me" <= u
  }

  /** A link with the scheme rule applied keeps its ends free of white space of either runtime. */
  lemma WithSchemeTrimmed(cls: CharClass, u: string)
    requires cls != Hyphen
    requires IsTrimmed(cls, u)
    ensures IsTrimmed(cls, WithScheme(u))
  {
    var r := WithScheme(u);
    if r != u {
      var p := r[..|r| - |u|];
      assert r == p + u;
      assert p == "https://" || p == "https://www.facebook.com/";
    }
  }

  /** normalizeFBUrl: the empty link stays empty; any other is trimmed and given a scheme. */
  function NormalizeFbUrl(url: string): (r: string)
    ensures r == [] <==> url == []
    ensures url != [] ==> "http" <= r && IsTrimmed(JsWhiteSpace, r)
    ensures url != [] ==> EndsWith(r, Trim(JsWhiteSpace, url))
    ensures url != [] && "http" <= Trim(JsWhiteSpace, url) ==> r == Trim(JsWhiteSpace, url)
    ensures url != [] ==> r == WithScheme(Trim(JsWhiteSpace, url))
  {
    if url == [] then []
    else
      var t := Trim(JsWhiteSpace, url);
      WithSchemeTrimmed(JsWhiteSpace, t);
      var r := WithScheme(t);
      assert |r| >= 4;
      r
  }

  /**
   * A bare page handle is put under `https://www.facebook.com/`, while a link naming the
   * Facebook host only gets `https://`, so the host is never doubled.
   */
  lemma NormalizeFbUrlExamples(handle: string, link: string)
    requires handle == "myplace" && link == "facebook.com/" + handle
    ensures NormalizeFbUrl(handle) == "https://www.facebook.com/" + handle
    ensures NormalizeFbUrl(link) == "https://" + link
  {
    PageHandleExample(handle);
    HostLinkExample(handle, link);
  }

  lemma PageHandleExample(handle: string)
    requires handle == "myplace"
    ensures NormalizeFbUrl(handle) == "https://www.facebook.com/" + handle
  {
    NormalizeTrimmed(handle);
    HandleGetsPagePrefix(handle);
  }

  lemma HostLinkExample(handle: string, link: string)
    requires handle == "myplace" && link == "facebook.com/" + handle
    ensures NormalizeFbUrl(link) == "https://" + link
  {
    var host: string := "facebook.com";
    assert link == host + ("/" + handle);
    assert host <= link;
    FirstCharDiffers("http", link);
    NormalizeTrimmed(link);
  }

  /** A link without white space at its ends is only given its scheme. */
  lemma NormalizeTrimmed(u: string)
    requires |u| > 0 && 'a' <= u[0] <= 'z' && 'a' <= u[|u| - 1] <= 'z'
    ensures NormalizeFbUrl(u) == WithScheme(u)
  {
    assert IsTrimmed(JsWhiteSpace, u);
    TrimOfTrimmed(JsWhiteSpace, u);
  }

  /** A link that starts with none of `h`, `f` and `w` is taken as a page handle. */
  lemma HandleGetsPagePrefix(u: string)
    requires u != [] && u[0] != 'h' && u[0] != 'f' && u[0] != 'w'
    ensures WithScheme(u) == "https://www.facebook.com/" + u
  {
    FirstCharDiffers("http", u);
    FirstCharDiffers("facebook.com", u);
    FirstCharDiffers("www.facebook.com", u);
    FirstCharDiffers("fb.me", u);
  }

  lemma FirstCharDiffers(p: string, u: string)
    requires p != [] && u != [] && p[0] != u[0]
    ensures !(p <= u)
  {
  }

  /** Normalising a normalised link changes nothing. */
  lemma NormalizeFbUrlIdempotent(url: string)
    ensures NormalizeFbUrl(NormalizeFbUrl(url)) == NormalizeFbUrl(url)
  {
    var r := NormalizeFbUrl(url);
    if r != [] {
      TrimOfTrimmed(JsWhiteSpace, r);
    }
  }

  // ---------------------------------------------------------------------------------------
  // Parsing
  // ---------------------------------------------------------------------------------------

  /** What every entry the parser emits satisfies. */
  predicate WellFormedEntry(e: Entry) {
    && e.categorie1 != [] && e.nom != [] && "http" <= e.lien
    && IsTrimmed(JsWhiteSpace, e.categorie1) && IsTrimmed(JsWhiteSpace, e.categorie2)
    && IsTrimmed(JsWhiteSpace, e.categorie3) && IsTrimmed(JsWhiteSpace, e.nom)
    && IsTrimmed(JsWhiteSpace, e.lien)
  }

  /** One line after the header: kept when it has five fields and category 1, name and link. */
  function ParseLine(raw: string): (r: Option<Entry>)
    ensures r.Some? <==> FieldCount(raw) >= 5 && ReadFields(raw).value.cat1 != []
                         && ReadFields(raw).value.nom != [] && ReadFields(raw).value.lien != []
    ensures r.Some? ==> WellFormedEntry(r.value)
    ensures r.Some? ==> var f := ReadFields(raw).value;
              r.value == Entry(f.cat1, f.cat2, f.cat3, f.nom, NormalizeFbUrl(f.lien))
  {
    match ReadFields(raw)
    case None => None
    case Some(f) =>
      if f.cat1 != [] && f.nom != [] && f.lien != [] then
        Some(Entry(f.cat1, f.cat2, f.cat3, f.nom, NormalizeFbUrl(f.lien)))
      else None
  }

  /**
   * A line written from five trimmed fields without `;` is read back as the entry of those
   * fields, with its link normalised.
   */
  lemma ParseWrittenLine(f: Fields)
    requires FieldsTrimmed(f) && NoDelimiter(f)
    requires f.cat1 != [] && f.nom != [] && f.lien != []
    ensures ParseLine(WriteFields(f)) == Some(Entry(f.cat1, f.cat2, f.cat3, f.nom, NormalizeFbUrl(f.lien)))
  {
    ReadWrittenFields(f);
  }

  /** What one line contributes: its entry, or nothing. */
  function LineEntries(raw: string): (r: seq<Entry>)
    ensures r == [] || (|r| == 1 && WellFormedEntry(r[0]))
  {
    match ParseLine(raw)
    case None => []
    case Some(e) => [e]
  }

  /** The entries of a run of lines, in line order. */
  function ParseEntries(lines: seq<string>): (data: seq<Entry>)
    ensures |data| <= |lines|
    ensures forall e :: e in data ==> WellFormedEntry(e)
  {
    if lines == [] then []
    else ParseEntries(lines[..|lines| - 1]) + LineEntries(lines[|lines| - 1])
  }

  /** The entries of a whole catalogue text: every line but the first (the header). */
  function CsvEntries(csvText: string): seq<Entry> {
    ParseEntries(Split(csvText, '\n')[1..])
  }

  /** parseCSV */
  method ParseCsv(csvText: string) returns (data: seq<Entry>)
    ensures data == CsvEntries(csvText)
    ensures |data| <= |Split(csvText, '\n')| - 1
    ensures forall e :: e in data ==> WellFormedEntry(e)
  {
    var lines := Split(csvText, '\n');
    data := [];
    for i := 1 to |lines|
      invariant data == ParseEntries(lines[1..i])
    {
      ParseEntriesStep(lines, i);
      var line := Trim(JsWhiteSpace, lines[i]);
      if line == [] {
        UnreadLineEntries(lines[i]);
        continue;
      }
      var parts := Split(line, ';');
      if |parts| < 5 {
        UnreadLineEntries(lines[i]);
        continue;
      }
      var f := TrimFields(parts);
      ReadLineEntries(lines[i], parts, f);
      if f.cat1 != [] && f.nom != [] && f.lien != [] {
        data := data + [Entry(f.cat1, f.cat2, f.cat3, f.nom, NormalizeFbUrl(f.lien))];
      }
    }
    assert lines[1..] == lines[1..|lines|];
  }

  /** A line that is blank or has fewer than five fields contributes nothing. */
  lemma UnreadLineEntries(raw: string)
    requires Trim(JsWhiteSpace, raw) == [] || |Split(Trim(JsWhiteSpace, raw), ';')| < 5
    ensures LineEntries(raw) == []
  {
  }

  /** A line read as `f` contributes its entry exactly when category 1, name and link are set. */
  lemma ReadLineEntries(raw: string, parts: seq<string>, f: Fields)
    requires Trim(JsWhiteSpace, raw) != [] && parts == Split(Trim(JsWhiteSpace, raw), ';')
    requires |parts| >= 5 && f == TrimFields(parts)
    ensures LineEntries(raw) ==
              if f.cat1 != [] && f.nom != [] && f.lien != []
              then [Entry(f.cat1, f.cat2, f.cat3, f.nom, NormalizeFbUrl(f.lien))]
              else []
  {
    assert ReadFields(raw) == Some(f);
    assert ParseLine(raw) == if f.cat1 != [] && f.nom != [] && f.lien != []
                             then Some(Entry(f.cat1, f.cat2, f.cat3, f.nom, NormalizeFbUrl(f.lien)))
                             else None;
  }

  lemma ParseEntriesStep(lines: seq<string>, i: nat)
    requires 1 <= i < |lines|
    ensures ParseEntries(lines[1..i + 1]) == ParseEntries(lines[1..i]) + LineEntries(lines[i])
  {
    var run := lines[1..i + 1];
    assert |run| == i && run != [];
    assert run[..|run| - 1] == lines[1..i];
    assert run[|run| - 1] == lines[i];
  }

  /** Parsing two runs of lines one after the other gives their entries one after the other. */
  lemma {:induction false} ParseEntriesAppend(a: seq<string>, b: seq<string>)
    ensures ParseEntries(a + b) == ParseEntries(a) + ParseEntries(b)
  {
    if b != [] {
      var init, last := b[..|b| - 1], b[|b| - 1];
      assert (a + b)[..|a + b| - 1] == a + init;
      assert (a + b)[|a + b| - 1] == last;
      assert ParseEntries(a + b) == ParseEntries(a + init) + LineEntries(last);
      assert ParseEntries(b) == ParseEntries(init) + LineEntries(last);
      ParseEntriesAppend(a, init);
    } else {
      assert a + b == a;
    }
  }

  /** An entry is emitted exactly when some line parses to it. */
  lemma {:induction false} ParseEntriesMember(lines: seq<string>, e: Entry)
    ensures e in ParseEntries(lines) <==> exists i :: 0 <= i < |lines| && ParseLine(lines[i]) == Some(e)
  {
    if e in ParseEntries(lines) {
      var i := EmittingLine(lines, e);
    }
    if exists i :: 0 <= i < |lines| && ParseLine(lines[i]) == Some(e) {
      var i :| 0 <= i < |lines| && ParseLine(lines[i]) == Some(e);
      EmittedLine(lines, i);
    }
  }

  lemma {:induction false} EmittingLine(lines: seq<string>, e: Entry) returns (i: nat)
    requires e in ParseEntries(lines)
    ensures i < |lines| && ParseLine(lines[i]) == Some(e)
  {
    var init, last := lines[..|lines| - 1], lines[|lines| - 1];
    if e in ParseEntries(init) {
      i := EmittingLine(init, e);
      assert lines[i] == init[i];
    } else {
      i := |lines| - 1;
    }
  }

  lemma {:induction false} EmittedLine(lines: seq<string>, i: nat)
    requires i < |lines| && ParseLine(lines[i]).Some?
    ensures ParseLine(lines[i]).value in ParseEntries(lines)
  {
    var init := lines[..|lines| - 1];
    if i < |lines| - 1 {
      assert lines[i] == init[i];
      EmittedLine(init, i);
    }
  }

  /** The header line contributes nothing: only the text after the first newline matters. */
  lemma HeaderIgnored(header: string, body: string)
    requires '\n' !in header
    ensures CsvEntries(header + "\n" + body) == ParseEntries(Split(body, '\n'))
  {
    SplitPieceThenSep(header, '\n', body);
    assert header + "\n" + body == header + ['\n'] + body;
  }

  /** A text without a newline is all header and yields no entry. */
  lemma HeaderOnly(header: string)
    requires '\n' !in header
    ensures CsvEntries(header) == []
  {
    SplitNoSep(header, '\n');
  }

  // ---------------------------------------------------------------------------------------
  // The category tree
  // ---------------------------------------------------------------------------------------

  /**
   * Stores an entry in its category-2 node: in the list of its category 3 (created empty on
   * first use) when it has one, otherwise among the node's own items.
   */
  function AddToNode(node: Cat2Node, e: Entry): (r: Cat2Node)
    ensures r.items == node.items + (if e.categorie3 == [] then [Item(e.nom, e.lien)] else [])
    ensures forall c3 :: Get(r.subcategories, c3) == (
              if c3 == e.categorie3 && c3 != [] then Some(GetOr(node.subcategories, c3, []) + [Item(e.nom, e.lien)])
              else Get(node.subcategories, c3))
    ensures Keys(r.subcategories) ==
      if e.categorie3 != [] && e.categorie3 !in Keys(node.subcategories) then Keys(node.subcategories) + [e.categorie3]
      else Keys(node.subcategories)
  {
    var item := Item(e.nom, e.lien);
    if e.categorie3 != [] then
      var subs := if e.categorie3 in Keys(node.subcategories) then node.subcategories
                  else Put(node.subcategories, e.categorie3, []);
      node.(subcategories := Put(subs, e.categorie3, GetOr(subs, e.categorie3, []) + [item]))
    else
      node.(items := node.items + [item])
  }

  /** Stores an entry with a category 2 under its category-1 map, creating its node on first use. */
  function AddToCat1(m: Cat1Map, e: Entry): Cat1Map {
    var m1 := if e.categorie2 in Keys(m) then m else Put(m, e.categorie2, EmptyNode);
    Put(m1, e.categorie2, AddToNode(GetOr(m1, e.categorie2, EmptyNode), e))
  }

  /** One step of the fold in getCategories. */
  function AddEntry(t: Tree, e: Entry): Tree {
    var t1 := if e.categorie1 in Keys(t) then t else Put(t, e.categorie1, []);
    if e.categorie2 == [] then t1
    else Put(t1, e.categorie1, AddToCat1(GetOr(t1, e.categorie1, []), e))
  }

  lemma AddToCat1Keys(m: Cat1Map, e: Entry)
    ensures Keys(AddToCat1(m, e)) == if e.categorie2 in Keys(m) then Keys(m) else Keys(m) + [e.categorie2]
  {
  }

  lemma AddToCat1Get(m: Cat1Map, e: Entry, c2: string)
    ensures Get(AddToCat1(m, e), c2) ==
      if c2 == e.categorie2 then Some(AddToNode(match Get(m, c2) case Some(n) => n case None => EmptyNode, e))
      else Get(m, c2)
  {
  }

  /** The first level of a fold step. */
  lemma AddEntryCat1(t: Tree, e: Entry, c1: string)
    ensures Keys(AddEntry(t, e)) == if e.categorie1 in Keys(t) then Keys(t) else Keys(t) + [e.categorie1]
    ensures Get(AddEntry(t, e), c1) ==
      if c1 == e.categorie1 then Some(if e.categorie2 == [] then GetOr(t, c1, []) else AddToCat1(GetOr(t, c1, []), e))
      else Get(t, c1)
  {
  }

  /** The tree getCategories builds from the entries, in order. */
  function BuildTree(data: seq<Entry>): Tree {
    if data == [] then [] else AddEntry(BuildTree(data[..|data| - 1]), data[|data| - 1])
  }

  /** `categories[cat1][cat2]`. */
  function NodeAt(t: Tree, c1: string, c2: string): Option<Cat2Node> {
    match Get(t, c1)
    case Some(m) => Get(m, c2)
    case None => None
  }

  /** The items of the entries filed under exactly (c1, c2, c3), in entry order. */
  function EntriesAt(data: seq<Entry>, c1: string, c2: string, c3: string): seq<Item> {
    if data == [] then []
    else
      var e := data[|data| - 1];
      EntriesAt(data[..|data| - 1], c1, c2, c3)
        + (if e.categorie1 == c1 && e.categorie2 == c2 && e.categorie3 == c3 then [Item(e.nom, e.lien)] else [])
  }

  /** The fold over one more entry of a prefix. */
  lemma BuildTreePrefix(data: seq<Entry>, i: nat)
    requires i < |data|
    ensures BuildTree(data[..i + 1]) == AddEntry(BuildTree(data[..i]), data[i])
  {
    assert data[..i + 1][..i] == data[..i];
  }

  /** How one step changes the tree: keys of both levels, and the only node that changes. */
  lemma AddEntryStep(t: Tree, e: Entry, c1: string, c2: string)
    ensures Keys(AddEntry(t, e)) == if e.categorie1 in Keys(t) then Keys(t) else Keys(t) + [e.categorie1]
    ensures Keys(GetOr(AddEntry(t, e), c1, [])) ==
      if c1 == e.categorie1 && e.categorie2 != [] && e.categorie2 !in Keys(GetOr(t, c1, []))
      then Keys(GetOr(t, c1, [])) + [e.categorie2]
      else Keys(GetOr(t, c1, []))
    ensures NodeAt(AddEntry(t, e), c1, c2) ==
      if c1 == e.categorie1 && c2 == e.categorie2 && c2 != []
      then Some(AddToNode(match NodeAt(t, c1, c2) case Some(n) => n case None => EmptyNode, e))
      else NodeAt(t, c1, c2)
  {
    AddEntryCat1(t, e, c1);
    if c1 == e.categorie1 && e.categorie2 != [] {
      AddToCat1Keys(GetOr(t, c1, []), e);
      AddToCat1Get(GetOr(t, c1, []), e, c2);
    }
  }

  ghost predicate HasCat1(data: seq<Entry>, c1: string) {
    exists i :: 0 <= i < |data| && data[i].categorie1 == c1
  }

  ghost predicate HasPair(data: seq<Entry>, c1: string, c2: string) {
    exists i :: 0 <= i < |data| && data[i].categorie1 == c1 && data[i].categorie2 == c2
  }

  lemma HasSnoc(data: seq<Entry>, c1: string, c2: string)
    requires data != []
    ensures HasCat1(data, c1) <==> HasCat1(data[..|data| - 1], c1) || data[|data| - 1].categorie1 == c1
    ensures HasPair(data, c1, c2) <==>
              HasPair(data[..|data| - 1], c1, c2) || (data[|data| - 1].categorie1 == c1 && data[|data| - 1].categorie2 == c2)
  {
    var init := data[..|data| - 1];
    assert forall i :: 0 <= i < |init| ==> init[i] == data[i];
  }

  /** Category 1 is a key of the tree exactly when some entry has it. */
  lemma {:induction false} BuildTreeCat1(data: seq<Entry>, c1: string)
    ensures c1 in Keys(BuildTree(data)) <==> HasCat1(data, c1)
  {
    if data != [] {
      var init := data[..|data| - 1];
      BuildTreeCat1(init, c1);
      HasSnoc(data, c1, []);
      AddEntryStep(BuildTree(init), data[|data| - 1], c1, []);
    }
  }

  /** EntriesAt over a prefix followed by one more entry. */
  lemma EntriesAtSnoc(data: seq<Entry>, c1: string, c2: string, c3: string)
    requires data != []
    ensures EntriesAt(data, c1, c2, c3) == EntriesAt(data[..|data| - 1], c1, c2, c3)
      + (if data[|data| - 1].categorie1 == c1 && data[|data| - 1].categorie2 == c2 && data[|data| - 1].categorie3 == c3
         then [Item(data[|data| - 1].nom, data[|data| - 1].lien)] else [])
  {
  }

  /** With no entry for (c1, c2) nothing is filed under it. */
  lemma {:induction false} EntriesAtWithoutPair(data: seq<Entry>, c1: string, c2: string, c3: string)
    requires !HasPair(data, c1, c2)
    ensures EntriesAt(data, c1, c2, c3) == []
  {
    if data != [] {
      HasSnoc(data, c1, c2);
      EntriesAtWithoutPair(data[..|data| - 1], c1, c2, c3);
    }
  }

  /** A node (c1, c2) exists exactly when c2 is non-empty and some entry has (c1, c2). */
  lemma {:induction false} BuildTreeNodes(data: seq<Entry>, c1: string, c2: string)
    ensures NodeAt(BuildTree(data), c1, c2).Some? <==> c2 != [] && HasPair(data, c1, c2)
  {
    if data != [] {
      var init := data[..|data| - 1];
      BuildTreeNodes(init, c1, c2);
      HasSnoc(data, c1, c2);
      AddEntryStep(BuildTree(init), data[|data| - 1], c1, c2);
    }
  }

  /**
   * Where getCategories files every entry: the items of node (c1, c2) are those of the
   * entries with (c1, c2) and no category 3, and its list for a non-empty c3 exists exactly
   * when some entry has (c1, c2, c3) and holds their items, in entry order.
   */
  lemma {:induction false} BuildTreePlacement(data: seq<Entry>, c1: string, c2: string, c3: string)
    requires NodeAt(BuildTree(data), c1, c2).Some?
    ensures NodeAt(BuildTree(data), c1, c2).value.items == EntriesAt(data, c1, c2, [])
    ensures Get(NodeAt(BuildTree(data), c1, c2).value.subcategories, c3) ==
              if c3 != [] && EntriesAt(data, c1, c2, c3) != [] then Some(EntriesAt(data, c1, c2, c3)) else None
    decreases |data|, 0
  {
    var init, e := data[..|data| - 1], data[|data| - 1];
    var t := BuildTree(init);
    assert BuildTree(data) == AddEntry(t, e);
    BuildTreeNodes(data, c1, c2);
    AddEntryStep(t, e, c1, c2);
    EntriesAtSnoc(data, c1, c2, []);
    EntriesAtSnoc(data, c1, c2, c3);
    var before := match NodeAt(t, c1, c2) case Some(n) => n case None => EmptyNode;
    PlacementOrEmpty(init, c1, c2, c3);
    if c1 == e.categorie1 && c2 == e.categorie2 && c2 != [] {
      var item := Item(e.nom, e.lien);
      assert NodeAt(BuildTree(data), c1, c2) == Some(AddToNode(before, e));
      assert EntriesAt(data, c1, c2, []) == EntriesAt(init, c1, c2, []) + (if e.categorie3 == [] then [item] else []);
      assert EntriesAt(data, c1, c2, c3) == EntriesAt(init, c1, c2, c3) + (if e.categorie3 == c3 then [item] else []);
      AddToNodePlacement(before, e, c3, EntriesAt(init, c1, c2, []), EntriesAt(init, c1, c2, c3));
    } else {
      assert NodeAt(BuildTree(data), c1, c2) == NodeAt(t, c1, c2) == Some(before);
      assert EntriesAt(data, c1, c2, []) == EntriesAt(init, c1, c2, []);
      assert EntriesAt(data, c1, c2, c3) == EntriesAt(init, c1, c2, c3);
    }
  }

  /**
   * Filing one entry in a node whose own items are `a` and whose list for c3 is `b` (absent
   * while empty): the entry's item joins `a` when it has no category 3, and joins `b` when its
   * category 3 is c3.
   */
  lemma AddToNodePlacement(before: Cat2Node, e: Entry, c3: string, a: seq<Item>, b: seq<Item>)
    requires before.items == a
    requires Get(before.subcategories, c3) == if c3 != [] && b != [] then Some(b) else None
    ensures AddToNode(before, e).items == a + (if e.categorie3 == [] then [Item(e.nom, e.lien)] else [])
    ensures var b' := b + (if e.categorie3 == c3 then [Item(e.nom, e.lien)] else []);
            Get(AddToNode(before, e).subcategories, c3) == if c3 != [] && b' != [] then Some(b') else None
  {
    if e.categorie3 == c3 && c3 != [] {
      assert GetOr(before.subcategories, c3, []) == b;
    } else {
      assert b + [] == b;
    }
  }

  /**
   * The placement facts for the node at (c1, c2) with c2 non-empty, read as an empty node when
   * it is absent.
   */
  lemma {:induction false} PlacementOrEmpty(data: seq<Entry>, c1: string, c2: string, c3: string)
    requires c2 != []
    ensures var n := match NodeAt(BuildTree(data), c1, c2) case Some(n) => n case None => EmptyNode;
            && n.items == EntriesAt(data, c1, c2, [])
            && Get(n.subcategories, c3) ==
               if c3 != [] && EntriesAt(data, c1, c2, c3) != [] then Some(EntriesAt(data, c1, c2, c3)) else None
    decreases |data|, 1
  {
    if NodeAt(BuildTree(data), c1, c2).Some? {
      BuildTreePlacement(data, c1, c2, c3);
    } else {
      BuildTreeNodes(data, c1, c2);
      EntriesAtWithoutPair(data, c1, c2, []);
      EntriesAtWithoutPair(data, c1, c2, c3);
    }
  }

  // ---------------------------------------------------------------------------------------
  // Key order
  // ---------------------------------------------------------------------------------------

  /** The category 1 of every entry, in entry order. */
  function Cat1Column(data: seq<Entry>): seq<string> {
    if data == [] then [] else Cat1Column(data[..|data| - 1]) + [data[|data| - 1].categorie1]
  }

  /** The non-empty categories 2 of the entries with category 1 `c1`, in entry order. */
  function Cat2Column(data: seq<Entry>, c1: string): seq<string> {
    if data == [] then []
    else
      var e := data[|data| - 1];
      Cat2Column(data[..|data| - 1], c1) + (if e.categorie1 == c1 && e.categorie2 != [] then [e.categorie2] else [])
  }

  /** The non-empty categories 3 of the entries with (c1, c2), in entry order. */
  function Cat3Column(data: seq<Entry>, c1: string, c2: string): seq<string> {
    if data == [] then []
    else
      var e := data[|data| - 1];
      Cat3Column(data[..|data| - 1], c1, c2)
        + (if e.categorie1 == c1 && e.categorie2 == c2 && e.categorie3 != [] then [e.categorie3] else [])
  }

  /** FirstSeen after one more key. */
  lemma FirstSeenSnoc(ks: seq<string>, k: string)
    ensures FirstSeen(ks + [k]) == if k in FirstSeen(ks) then FirstSeen(ks) else FirstSeen(ks) + [k]
  {
    assert (ks + [k])[..|ks|] == ks;
  }

  /** The categories 1 of the tree come in the order of their first entry. */
  lemma {:induction false} BuildTreeCat1Order(data: seq<Entry>)
    ensures Keys(BuildTree(data)) == FirstSeen(Cat1Column(data))
  {
    if data != [] {
      var init, e := data[..|data| - 1], data[|data| - 1];
      BuildTreeCat1Order(init);
      AddEntryStep(BuildTree(init), e, [], []);
      FirstSeenSnoc(Cat1Column(init), e.categorie1);
    }
  }

  /** Under each category 1, the categories 2 come in the order of their first entry. */
  lemma {:induction false} BuildTreeCat2Order(data: seq<Entry>, c1: string)
    ensures Keys(GetOr(BuildTree(data), c1, [])) == FirstSeen(Cat2Column(data, c1))
  {
    if data != [] {
      var init, e := data[..|data| - 1], data[|data| - 1];
      var t := BuildTree(init);
      assert BuildTree(data) == AddEntry(t, e);
      BuildTreeCat2Order(init, c1);
      AddEntryStep(t, e, c1, []);
      var col := Cat2Column(init, c1);
      if e.categorie1 == c1 && e.categorie2 != [] {
        assert Cat2Column(data, c1) == col + [e.categorie2];
        FirstSeenSnoc(col, e.categorie2);
      } else {
        assert Cat2Column(data, c1) == col;
      }
    }
  }

  /** With no entry for (c1, c2) there is no category 3 under it. */
  lemma {:induction false} Cat3ColumnWithoutPair(data: seq<Entry>, c1: string, c2: string)
    requires !HasPair(data, c1, c2)
    ensures Cat3Column(data, c1, c2) == []
  {
    if data != [] {
      HasSnoc(data, c1, c2);
      Cat3ColumnWithoutPair(data[..|data| - 1], c1, c2);
    }
  }

  /** Storing an entry in a node appends its category 3 to the node's keys when it is new. */
  lemma AddToNodeKeyOrder(node: Cat2Node, e: Entry, col: seq<string>)
    requires Keys(node.subcategories) == FirstSeen(col)
    ensures Keys(AddToNode(node, e).subcategories) == FirstSeen(col + (if e.categorie3 != [] then [e.categorie3] else []))
  {
    if e.categorie3 != [] {
      FirstSeenSnoc(col, e.categorie3);
    } else {
      assert col + [] == col;
    }
  }

  /** One fold step on the category-3 keys of node (c1, c2). */
  lemma Cat3OrderStep(t: Tree, e: Entry, c1: string, c2: string, col: seq<string>)
    requires c2 != [] && NodeAt(AddEntry(t, e), c1, c2).Some?
    requires NodeAt(t, c1, c2).Some? ==> Keys(NodeAt(t, c1, c2).value.subcategories) == FirstSeen(col)
    requires NodeAt(t, c1, c2).None? ==> col == []
    ensures Keys(NodeAt(AddEntry(t, e), c1, c2).value.subcategories)
            == FirstSeen(col + (if e.categorie1 == c1 && e.categorie2 == c2 && e.categorie3 != [] then [e.categorie3] else []))
  {
    AddEntryStep(t, e, c1, c2);
    var before := match NodeAt(t, c1, c2) case Some(n) => n case None => EmptyNode;
    if c1 == e.categorie1 && c2 == e.categorie2 {
      AddToNodeKeyOrder(before, e, col);
    } else {
      assert col + [] == col;
    }
  }

  /** In each node, the categories 3 come in the order of their first entry. */
  lemma {:induction false} BuildTreeCat3Order(data: seq<Entry>, c1: string, c2: string)
    requires NodeAt(BuildTree(data), c1, c2).Some?
    ensures Keys(NodeAt(BuildTree(data), c1, c2).value.subcategories) == FirstSeen(Cat3Column(data, c1, c2))
  {
    var init, e := data[..|data| - 1], data[|data| - 1];
    var t := BuildTree(init);
    assert BuildTree(data) == AddEntry(t, e);
    BuildTreeNodes(data, c1, c2);
    if NodeAt(t, c1, c2).Some? {
      BuildTreeCat3Order(init, c1, c2);
    } else {
      BuildTreeNodes(init, c1, c2);
      Cat3ColumnWithoutPair(init, c1, c2);
    }
    Cat3OrderStep(t, e, c1, c2, Cat3Column(init, c1, c2));
  }

  // ---------------------------------------------------------------------------------------
  // Nothing lost, nothing duplicated
  // ---------------------------------------------------------------------------------------

  function ListSize(l: seq<Item>): nat {
    |l|
  }

  /** The number of items stored in a node, in its own list and in all its category-3 lists. */
  function NodeSize(n: Cat2Node): nat {
    |n.items| + SumBy(n.subcategories, ListSize)
  }

  function Cat1Size(m: Cat1Map): nat {
    SumBy(m, NodeSize)
  }

  /** The number of items stored anywhere in the tree. */
  function TreeSize(t: Tree): nat {
    SumBy(t, Cat1Size)
  }

  /** The number of entries that have a category 2, the only ones getCategories stores. */
  function FiledCount(data: seq<Entry>): nat {
    if data == [] then 0
    else FiledCount(data[..|data| - 1]) + (if data[|data| - 1].categorie2 != [] then 1 else 0)
  }

  lemma AddToNodeSize(node: Cat2Node, e: Entry)
    ensures NodeSize(AddToNode(node, e)) == NodeSize(node) + 1
  {
    if e.categorie3 != [] {
      var subs := if e.categorie3 in Keys(node.subcategories) then node.subcategories
                  else Put(node.subcategories, e.categorie3, []);
      SumByPut(node.subcategories, e.categorie3, [], ListSize);
      SumByPut(subs, e.categorie3, GetOr(subs, e.categorie3, []) + [Item(e.nom, e.lien)], ListSize);
    }
  }

  lemma AddToCat1Size(m: Cat1Map, e: Entry)
    ensures Cat1Size(AddToCat1(m, e)) == Cat1Size(m) + 1
  {
    var m1 := if e.categorie2 in Keys(m) then m else Put(m, e.categorie2, EmptyNode);
    SumByPut(m, e.categorie2, EmptyNode, NodeSize);
    assert Cat1Size(m1) == Cat1Size(m);
    var node := GetOr(m1, e.categorie2, EmptyNode);
    AddToNodeSize(node, e);
    SumByPut(m1, e.categorie2, AddToNode(node, e), NodeSize);
  }

  /** One fold step stores exactly one item when the entry has a category 2, and none otherwise. */
  lemma AddEntrySize(t: Tree, e: Entry)
    ensures TreeSize(AddEntry(t, e)) == TreeSize(t) + (if e.categorie2 != [] then 1 else 0)
  {
    var t1 := if e.categorie1 in Keys(t) then t else Put(t, e.categorie1, []);
    SumByPut(t, e.categorie1, [], Cat1Size);
    assert TreeSize(t1) == TreeSize(t);
    if e.categorie2 != [] {
      var m := GetOr(t1, e.categorie1, []);
      AddToCat1Size(m, e);
      SumByPut(t1, e.categorie1, AddToCat1(m, e), Cat1Size);
    }
  }

  /** getCategories stores every entry with a category 2 exactly once and nothing else. */
  lemma {:induction false} BuildTreeSize(data: seq<Entry>)
    ensures TreeSize(BuildTree(data)) == FiledCount(data)
  {
    if data != [] {
      BuildTreeSize(data[..|data| - 1]);
      AddEntrySize(BuildTree(data[..|data| - 1]), data[|data| - 1]);
    }
  }

  // ---------------------------------------------------------------------------------------
  // Shape of the tree
  // ---------------------------------------------------------------------------------------

  /** Category-3 keys are distinct and non-empty, and no category-3 list is empty. */
  predicate WellFormedNode(n: Cat2Node) {
    NoDupKeys(n.subcategories) && forall p :: p in n.subcategories ==> p.0 != [] && p.1 != []
  }

  /** Category-2 keys are distinct and non-empty, and every node is well formed. */
  predicate WellFormedCat1(m: Cat1Map) {
    NoDupKeys(m) && forall p :: p in m ==> p.0 != [] && WellFormedNode(p.1)
  }

  /** The shape getCategories guarantees: each level keyed without repeats, no empty key below category 1. */
  predicate WellFormedTree(t: Tree) {
    NoDupKeys(t) && forall p :: p in t ==> WellFormedCat1(p.1)
  }

  lemma AddToNodeWellFormed(node: Cat2Node, e: Entry)
    requires WellFormedNode(node)
    ensures WellFormedNode(AddToNode(node, e))
  {
    if e.categorie3 != [] {
      var c3, item := e.categorie3, Item(e.nom, e.lien);
      var subs := if c3 in Keys(node.subcategories) then node.subcategories
                  else Put(node.subcategories, c3, []);
      PutNoDup(node.subcategories, c3, []);
      var v := GetOr(subs, c3, []) + [item];
      var r := Put(subs, c3, v);
      PutNoDup(subs, c3, v);
      assert AddToNode(node, e).subcategories == r;
      forall p | p in r
        ensures p.0 != [] && p.1 != []
      {
        if p.0 == c3 {
          MemberIsGet(r, p);
        } else {
          assert p in subs;
          assert p in node.subcategories;
        }
      }
    }
  }

  lemma PutNodeWellFormed(m: Cat1Map, c2: string, n: Cat2Node)
    requires WellFormedCat1(m) && c2 != [] && WellFormedNode(n)
    ensures WellFormedCat1(Put(m, c2, n))
  {
    PutNoDup(m, c2, n);
  }

  lemma NodeOfWellFormed(m: Cat1Map, c2: string)
    requires WellFormedCat1(m)
    ensures WellFormedNode(GetOr(m, c2, EmptyNode))
  {
    if Get(m, c2).Some? {
      GetIn(m, c2);
    }
  }

  lemma AddToCat1WellFormed(m: Cat1Map, e: Entry)
    requires WellFormedCat1(m) && e.categorie2 != []
    ensures WellFormedCat1(AddToCat1(m, e))
  {
    var c2 := e.categorie2;
    var m1 := if c2 in Keys(m) then m else Put(m, c2, EmptyNode);
    if c2 !in Keys(m) {
      PutNodeWellFormed(m, c2, EmptyNode);
    }
    var node := GetOr(m1, c2, EmptyNode);
    NodeOfWellFormed(m1, c2);
    AddToNodeWellFormed(node, e);
    PutNodeWellFormed(m1, c2, AddToNode(node, e));
  }

  /** Each fold step keeps the tree well formed. */
  lemma AddEntryWellFormed(t: Tree, e: Entry)
    requires WellFormedTree(t)
    ensures WellFormedTree(AddEntry(t, e))
  {
    var c1 := e.categorie1;
    var t1 := if c1 in Keys(t) then t else Put(t, c1, []);
    PutNoDup(t, c1, []);
    assert WellFormedTree(t1);
    if e.categorie2 != [] {
      var m := GetOr(t1, c1, []);
      GetIn(t1, c1);
      AddToCat1WellFormed(m, e);
      PutNoDup(t1, c1, AddToCat1(m, e));
    }
  }

  lemma {:induction false} BuildTreeWellFormed(data: seq<Entry>)
    ensures WellFormedTree(BuildTree(data))
  {
    if data != [] {
      BuildTreeWellFormed(data[..|data| - 1]);
      AddEntryWellFormed(BuildTree(data[..|data| - 1]), data[|data| - 1]);
    }
  }

  // ---------------------------------------------------------------------------------------
  // One category's page
  // ---------------------------------------------------------------------------------------

  /** What getCategoryItems returns: the page title, its breadcrumb and the items to list. */
  datatype Listing = Listing(title: string, breadcrumb: string, items: seq<Item>)

  /**
   * getCategoryItems: nothing when (c1, c2) is not a node; with a category 3, its list (empty
   * when it has none) under the title c3; without one, the node's own items under the title c2.
   * The breadcrumb is the path joined by " > " and ends with the title.
   */
  function GetCategoryItems(t: Tree, c1: string, c2: string, c3: string): (r: Option<Listing>)
    ensures r.Some? <==> NodeAt(t, c1, c2).Some?
    ensures r.Some? ==> r.value.title == (if c3 != [] then c3 else c2)
    ensures r.Some? ==> r.value.breadcrumb
                        == c1 + " > " + c2 + (if c3 != [] then " > " + c3 else [])
  {
    match NodeAt(t, c1, c2)
    case None => None
    case Some(node) =>
      if c3 != [] then Some(Listing(c3, c1 + " > " + c2 + " > " + c3, GetOr(node.subcategories, c3, [])))
      else Some(Listing(c2, c1 + " > " + c2, node.items))
  }

  /**
   * On the tree built from the entries, a listing exists exactly when some entry has (c1, c2)
   * with c2 non-empty, and it lists the entries filed under exactly (c1, c2, c3), in entry order.
   */
  lemma CategoryItemsOfEntries(data: seq<Entry>, c1: string, c2: string, c3: string)
    ensures GetCategoryItems(BuildTree(data), c1, c2, c3).Some? <==> c2 != [] && HasPair(data, c1, c2)
    ensures GetCategoryItems(BuildTree(data), c1, c2, c3).Some? ==>
              GetCategoryItems(BuildTree(data), c1, c2, c3).value.items == EntriesAt(data, c1, c2, c3)
  {
    BuildTreeNodes(data, c1, c2);
    if NodeAt(BuildTree(data), c1, c2).Some? {
      BuildTreePlacement(data, c1, c2, c3);
    }
  }

  /** The forEach of getCategories: the entries stored into an initially empty tree, in order. */
  method FoldEntries(data: seq<Entry>) returns (categories: Tree)
    ensures categories == BuildTree(data)
  {
    categories := [];
    for i := 0 to |data|
      invariant categories == BuildTree(data[..i])
    {
      BuildTreePrefix(data, i);
      categories := AddEntry(categories, data[i]);
    }
    assert data[..|data|] == data;
  }

  // ---------------------------------------------------------------------------------------
  // The module-level caches
  // ---------------------------------------------------------------------------------------

  /**
   * What loadCSVData hands on: the cached entries when there are any, else the parsed text of
   * the catalogue when fetching it succeeded (`fetched` is None when it failed), else nothing.
   */
  function Loaded(cache: Option<seq<Entry>>, fetched: Option<string>): seq<Entry> {
    match cache
    case Some(data) => data
    case None => match fetched case Some(text) => CsvEntries(text) case None => []
  }

  /**
   * The two module-level variables of js/data.js, `cachedCSVData` and `cachedCategories`.
   * Both start empty; a failed fetch caches nothing, but the (empty) tree built from it is
   * cached all the same.
   */
  class CatalogCache {
    var cachedCsvData: Option<seq<Entry>>
    var cachedCategories: Option<Tree>
    /** The catalogue text the cached entries were parsed from. */
    ghost var csvSource: string
    /** The entries the cached tree was built from. */
    ghost var categoriesSource: seq<Entry>

    ghost predicate Valid()
      reads this
    {
      (cachedCsvData.Some? ==> cachedCsvData.value == CsvEntries(csvSource))
      && (cachedCategories.Some? ==>
            cachedCategories.value == BuildTree(categoriesSource) && WellFormedTree(cachedCategories.value))
    }

    constructor()
      ensures Valid()
      ensures cachedCsvData == None && cachedCategories == None
    {
      cachedCsvData := None;
      cachedCategories := None;
      csvSource := [];
      categoriesSource := [];
    }

    /**
     * loadCSVData: a cached result is returned as it is; otherwise the fetched text is parsed
     * and cached, and when the fetch failed the result is empty and nothing is cached.
     */
    method LoadCsvData(fetched: Option<string>) returns (data: seq<Entry>)
      requires Valid()
      modifies this
      ensures Valid()
      ensures data == Loaded(old(cachedCsvData), fetched)
      ensures cachedCategories == old(cachedCategories)
      ensures cachedCsvData == if old(cachedCsvData).None? && fetched.Some? then Some(data) else old(cachedCsvData)
    {
      if cachedCsvData.Some? {
        return cachedCsvData.value;
      }
      match fetched
      case None =>
        data := [];
      case Some(text) =>
        data := ParseCsv(text);
        cachedCsvData := Some(data);
        csvSource := text;
    }

    /**
     * getCategories: a cached tree is returned as it is; otherwise the tree is folded from the
     * loaded entries one entry at a time, cached, and returned.
     */
    method GetCategories(fetched: Option<string>) returns (categories: Tree)
      requires Valid()
      modifies this
      ensures Valid()
      ensures WellFormedTree(categories)
      ensures old(cachedCategories).Some? ==> categories == old(cachedCategories).value && unchanged(this)
      ensures old(cachedCategories).None? ==>
                categories == BuildTree(Loaded(old(cachedCsvData), fetched))
                && cachedCategories == Some(categories)
                && cachedCsvData == (if old(cachedCsvData).None? && fetched.Some?
                                     then Some(Loaded(old(cachedCsvData), fetched))
                                     else old(cachedCsvData))
    {
      if cachedCategories.Some? {
        return cachedCategories.value;
      }
      var data := LoadCsvData(fetched);
      categories := FoldEntries(data);
      BuildTreeWellFormed(data);
      cachedCategories := Some(categories);
      categoriesSource := data;
    }
  }
}
