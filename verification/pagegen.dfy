/**
 * The Python page generator: read_csv_data groups the catalogue's records into nested
 * dictionaries, and generate_pages writes one page per category that holds links.
 */
module PageGen {
  import opened Wrappers
  import opened Text
  import opened Assoc
  import opened CsvLine
  import Catalog
  import opened PageNames

  // ---------------------------------------------------------------------------------------
  // Records
  // ---------------------------------------------------------------------------------------

  /**
   * A record as csv.DictReader yields it under the header
   * Categorie1;Categorie2;Categorie3;Nom;Lien: the fields of one line, in column order.
   * Columns past the end of a short line read as None; fields past the fifth are ignored.
   * A record is never empty: the reader skips blank lines.
   */
  type Record = r: seq<string> | |r| > 0 witness [""]

  /** `row.get(name, '')` for the column at `index`: None for a column the line does not reach. */
  function Column(rec: Record, index: nat): (r: Option<string>)
    ensures r.Some? <==> index < |rec|
    ensures r.Some? ==> r.value == rec[index]
  {
    if index < |rec| then Some(rec[index]) else None
  }

  /** A column's value stripped of white space, with a missing column read as the empty string. */
  function Strip(v: Option<string>): (r: string)
    ensures IsTrimmed(PyWhiteSpace, r)
  {
    match v
    case None => []
    case Some(s) => Trim(PyWhiteSpace, s)
  }

  /** The five values read_csv_data takes from a record, each stripped; missing ones are empty. */
  function ReadRecord(rec: Record): (f: Fields)
    ensures |rec| < 5 ==> f.lien == []
    ensures |rec| >= 5 ==> f == Fields(Trim(PyWhiteSpace, rec[0]), Trim(PyWhiteSpace, rec[1]),
                                       Trim(PyWhiteSpace, rec[2]), Trim(PyWhiteSpace, rec[3]),
                                       Trim(PyWhiteSpace, rec[4]))
  {
    Fields(Strip(Column(rec, 0)), Strip(Column(rec, 1)), Strip(Column(rec, 2)),
           Strip(Column(rec, 3)), Strip(Column(rec, 4)))
  }

  /**
   * The five values as the source reads them: `.strip()` is called on whatever
   * `row.get(name, '')` returns, and for a column a short line does not reach that is None, so
   * the call raises AttributeError (None here) and the run stops.
   */
  function ReadRecordAsWritten(rec: Record): (r: Option<Fields>)
    ensures r.Some? <==> |rec| >= 5
    ensures r.Some? ==> r.value == ReadRecord(rec)
  {
    if |rec| < 5 then None
    else Some(Fields(Trim(PyWhiteSpace, rec[0]), Trim(PyWhiteSpace, rec[1]), Trim(PyWhiteSpace, rec[2]),
                     Trim(PyWhiteSpace, rec[3]), Trim(PyWhiteSpace, rec[4])))
  }

  // ---------------------------------------------------------------------------------------
  // Grouping (read_csv_data)
  // ---------------------------------------------------------------------------------------

  /** categories[cat1][cat2]: each category 3, or `_items` for the category's own links, to its links. */
  type Node = AList<seq<Catalog.Item>>
  type Cat1Groups = AList<Node>
  type Groups = AList<Cat1Groups>

  /** The key under which links without a category 3 are kept. */
  const DirectKey: string := "_items"

  /**
   * The key of categories[cat1][cat2] a row's link is appended to, or None when the row adds
   * nothing: no category 1, no name or link, or neither category 2 nor category 3.
   */
  function Slot(f: Fields): (r: Option<string>)
    ensures r.Some? ==> f.cat1 != [] && f.nom != [] && f.lien != [] && r.value != []
    ensures r.Some? ==> (r.value == DirectKey <==> f.cat3 == [] || f.cat3 == DirectKey)
    ensures r.Some? ==> r.value == if f.cat3 != [] then f.cat3 else DirectKey
    ensures r.None? <==> f.cat1 == [] || f.nom == [] || f.lien == [] || (f.cat2 == [] && f.cat3 == [])
  {
    if f.cat1 == [] then None
    else if f.nom == [] || f.lien == [] then None
    else if f.cat3 != [] then Some(f.cat3)
    else if f.cat2 != [] then Some(DirectKey)
    else None
  }

  /** The stored link: the name and the normalised address. */
  function LinkOf(f: Fields): Catalog.Item {
    Catalog.Item(f.nom, NormalizeFbUrl(f.lien))
  }

  /** categories[c1][c2][k]: the links stored there, none when a level is missing. */
  function Lookup(g: Groups, c1: string, c2: string, k: string): seq<Catalog.Item> {
    GetOr(NodeOf(g, c1, c2), k, [])
  }

  function NodeOf(g: Groups, c1: string, c2: string): Node {
    GetOr(GetOr(g, c1, []), c2, [])
  }

  /**
   * `categories[c1][c2][k].append(item)` on nested defaultdicts: each missing level is created
   * on the way down, and only the list at (c1, c2, k) grows.
   */
  function Append(g: Groups, c1: string, c2: string, k: string, item: Catalog.Item): Groups {
    var m := GetOr(g, c1, []);
    var node := GetOr(m, c2, []);
    Put(g, c1, Put(m, c2, Put(node, k, GetOr(node, k, []) + [item])))
  }

  /** Appending creates a missing key at each of the three levels, at the end. */
  lemma AppendKeys(g: Groups, c1: string, c2: string, k: string, item: Catalog.Item)
    ensures Keys(Append(g, c1, c2, k, item)) == if c1 in Keys(g) then Keys(g) else Keys(g) + [c1]
    ensures Keys(GetOr(Append(g, c1, c2, k, item), c1, [])) ==
            if c2 in Keys(GetOr(g, c1, [])) then Keys(GetOr(g, c1, [])) else Keys(GetOr(g, c1, [])) + [c2]
    ensures Keys(NodeOf(Append(g, c1, c2, k, item), c1, c2)) ==
            if k in Keys(NodeOf(g, c1, c2)) then Keys(NodeOf(g, c1, c2)) else Keys(NodeOf(g, c1, c2)) + [k]
  {
    var m := GetOr(g, c1, []);
    var node := GetOr(m, c2, []);
    var node' := Put(node, k, GetOr(node, k, []) + [item]);
    var m' := Put(m, c2, node');
    GetOrPut(g, c1, m', c1, []);
    GetOrPut(m, c2, node', c2, []);
  }

  /** Appending grows the list at (c1, c2, k) by the item and leaves every other list as it was. */
  lemma AppendLookup(g: Groups, c1: string, c2: string, k: string, item: Catalog.Item, a: string, b: string, c: string)
    ensures Lookup(Append(g, c1, c2, k, item), a, b, c)
            == Lookup(g, a, b, c) + (if a == c1 && b == c2 && c == k then [item] else [])
  {
    AppendNodeOf(g, c1, c2, k, item, a, b);
    LookupAfter(g, Append(g, c1, c2, k, item), k, item, a, b, c, a == c1 && b == c2);
  }

  /** A lookup in groups whose node at (a, b) is either unchanged or has `item` appended at `k`. */
  lemma LookupAfter(g: Groups, g': Groups, k: string, item: Catalog.Item, a: string, b: string, c: string, hit: bool)
    requires NodeOf(g', a, b) == if hit then Put(NodeOf(g, a, b), k, GetOr(NodeOf(g, a, b), k, []) + [item])
                                 else NodeOf(g, a, b)
    ensures Lookup(g', a, b, c) == Lookup(g, a, b, c) + (if hit && c == k then [item] else [])
  {
    var before := Lookup(g, a, b, c);
    if hit && c == k {
      var node := NodeOf(g, a, b);
      GetOrPut(node, k, before + [item], c, []);
    } else if hit {
      var node := NodeOf(g, a, b);
      GetOrPut(node, k, GetOr(node, k, []) + [item], c, []);
      assert before + [] == before;
    } else {
      assert before + [] == before;
    }
  }

  /** Appending replaces the node at (c1, c2) and no other. */
  lemma AppendNodeOf(g: Groups, c1: string, c2: string, k: string, item: Catalog.Item, a: string, b: string)
    ensures NodeOf(Append(g, c1, c2, k, item), a, b)
            == if a == c1 && b == c2 then Put(NodeOf(g, c1, c2), k, GetOr(NodeOf(g, c1, c2), k, []) + [item])
               else NodeOf(g, a, b)
  {
    var m := GetOr(g, c1, []);
    var node := GetOr(m, c2, []);
    var node' := Put(node, k, GetOr(node, k, []) + [item]);
    var m' := Put(m, c2, node');
    GetOrPut(g, c1, m', a, []);
    GetOrPut(m, c2, node', b, []);
  }

  /** One row of the loop: its link is appended under its slot, or the row is passed over. */
  function AddRecord(g: Groups, f: Fields): Groups {
    match Slot(f)
    case None => g
    case Some(k) => Append(g, f.cat1, f.cat2, k, LinkOf(f))
  }

  /** read_csv_data with missing columns read as empty: the groups the records build in turn. */
  function GroupRecords(recs: seq<Record>): Groups {
    if recs == [] then []
    else AddRecord(GroupRecords(recs[..|recs| - 1]), ReadRecord(recs[|recs| - 1]))
  }

  /** read_csv_data as written: the groups, or None when a short record raises on `.strip()`. */
  function GroupRecordsAsWritten(recs: seq<Record>): Option<Groups> {
    if recs == [] then Some([])
    else
      match GroupRecordsAsWritten(recs[..|recs| - 1])
      case None => None
      case Some(g) =>
        match ReadRecordAsWritten(recs[|recs| - 1])
        case None => None
        case Some(f) => Some(AddRecord(g, f))
  }

  /** The loop of read_csv_data, with a missing column read as the empty string. */
  method ReadCsvData(records: seq<Record>) returns (categories: Groups)
    ensures categories == GroupRecords(records)
  {
    categories := [];
    for i := 0 to |records|
      invariant categories == GroupRecords(records[..i])
    {
      var row := records[i];
      var cat1 := Strip(Column(row, 0));
      var cat2 := Strip(Column(row, 1));
      var cat3 := Strip(Column(row, 2));
      var nom := Strip(Column(row, 3));
      var lien := Strip(Column(row, 4));
      assert records[..i + 1][..i] == records[..i];
      if cat1 == [] {
        continue;
      }
      if nom != [] && lien != [] {
        lien := NormalizeFbUrl(lien);
        if cat3 != [] {
          categories := Append(categories, cat1, cat2, cat3, Catalog.Item(nom, lien));
        } else if cat2 != [] {
          categories := Append(categories, cat1, cat2, DirectKey, Catalog.Item(nom, lien));
        }
      }
    }
    assert records[..|records|] == records;
  }

  // ---------------------------------------------------------------------------------------
  // Properties of the grouping
  // ---------------------------------------------------------------------------------------

  /** The links the records file under (c1, c2, k), in record order. */
  function LinksAt(recs: seq<Record>, c1: string, c2: string, k: string): seq<Catalog.Item> {
    if recs == [] then []
    else
      var f := ReadRecord(recs[|recs| - 1]);
      LinksAt(recs[..|recs| - 1], c1, c2, k)
      + (if Slot(f) == Some(k) && f.cat1 == c1 && f.cat2 == c2 then [LinkOf(f)] else [])
  }

  /** categories[c1][c2][k] holds exactly the links of the records filed there, in record order. */
  lemma {:induction false} GroupLinks(recs: seq<Record>, c1: string, c2: string, k: string)
    ensures Lookup(GroupRecords(recs), c1, c2, k) == LinksAt(recs, c1, c2, k)
  {
    if recs != [] {
      var init := recs[..|recs| - 1];
      var f := ReadRecord(recs[|recs| - 1]);
      GroupLinks(init, c1, c2, k);
      var g := GroupRecords(init);
      match Slot(f)
      case None =>
        assert LinksAt(init, c1, c2, k) + [] == LinksAt(init, c1, c2, k);
      case Some(key) =>
        AppendLookup(g, f.cat1, f.cat2, key, LinkOf(f), c1, c2, k);
    }
  }

  /** A category-2 entry: no empty key and no empty list, keys without repeats. */
  predicate WellFormedNode(n: Node) {
    NoDupKeys(n) && forall p :: p in n ==> p.0 != [] && p.1 != []
  }

  predicate WellFormedCat1(m: Cat1Groups) {
    NoDupKeys(m) && forall p :: p in m ==> p.1 != [] && WellFormedNode(p.1)
  }

  /**
   * The shape read_csv_data builds: every level keyed without repeats, no empty category 1,
   * and no empty dictionary or list anywhere, since a level is only created on the way to an
   * append.
   */
  predicate WellFormedGroups(g: Groups) {
    NoDupKeys(g) && forall p :: p in g ==> p.0 != [] && p.1 != [] && WellFormedCat1(p.1)
  }

  lemma PutNodeWellFormed(n: Node, k: string, list: seq<Catalog.Item>)
    requires WellFormedNode(n) && k != [] && list != []
    ensures WellFormedNode(Put(n, k, list))
  {
    PutNoDup(n, k, list);
  }

  lemma PutCat1WellFormed(m: Cat1Groups, c2: string, n: Node)
    requires WellFormedCat1(m) && n != [] && WellFormedNode(n)
    ensures WellFormedCat1(Put(m, c2, n))
  {
    PutNoDup(m, c2, n);
  }

  lemma PutGroupsWellFormed(g: Groups, c1: string, m: Cat1Groups)
    requires WellFormedGroups(g) && c1 != [] && m != [] && WellFormedCat1(m)
    ensures WellFormedGroups(Put(g, c1, m))
  {
    PutNoDup(g, c1, m);
  }

  lemma AppendWellFormed(g: Groups, c1: string, c2: string, k: string, item: Catalog.Item)
    requires WellFormedGroups(g) && c1 != [] && k != []
    ensures WellFormedGroups(Append(g, c1, c2, k, item))
  {
    var m := GetOr(g, c1, []);
    var node := GetOr(m, c2, []);
    WellFormedParts(g, c1, c2);
    var node' := Put(node, k, GetOr(node, k, []) + [item]);
    PutNodeWellFormed(node, k, GetOr(node, k, []) + [item]);
    assert node' != [] by { GetIn(node', k); }
    var m' := Put(m, c2, node');
    PutCat1WellFormed(m, c2, node');
    assert m' != [] by { GetIn(m', c2); }
    PutGroupsWellFormed(g, c1, m');
  }

  /** The dictionaries found by lookup in well-formed groups are well formed. */
  lemma WellFormedParts(g: Groups, c1: string, c2: string)
    requires WellFormedGroups(g)
    ensures WellFormedCat1(GetOr(g, c1, []))
    ensures WellFormedNode(NodeOf(g, c1, c2))
  {
    if Get(g, c1).Some? {
      GetIn(g, c1);
    }
    var m := GetOr(g, c1, []);
    if Get(m, c2).Some? {
      GetIn(m, c2);
    }
  }

  lemma {:induction false} GroupWellFormed(recs: seq<Record>)
    ensures WellFormedGroups(GroupRecords(recs))
  {
    if recs != [] {
      var init := recs[..|recs| - 1];
      var f := ReadRecord(recs[|recs| - 1]);
      GroupWellFormed(init);
      match Slot(f)
      case None =>
      case Some(key) =>
        AppendWellFormed(GroupRecords(init), f.cat1, f.cat2, key, LinkOf(f));
    }
  }

  /**
   * In well-formed groups a key is present at each level exactly when something non-empty is
   * stored under it.
   */
  lemma WellFormedKeys(g: Groups, c1: string, c2: string, k: string)
    requires WellFormedGroups(g)
    ensures c1 in Keys(g) <==> GetOr(g, c1, []) != []
    ensures c2 in Keys(GetOr(g, c1, [])) <==> NodeOf(g, c1, c2) != []
    ensures k in Keys(NodeOf(g, c1, c2)) <==> Lookup(g, c1, c2, k) != []
  {
    WellFormedParts(g, c1, c2);
    if Get(g, c1).Some? {
      GetIn(g, c1);
    }
    var m := GetOr(g, c1, []);
    if Get(m, c2).Some? {
      GetIn(m, c2);
    }
    var n := NodeOf(g, c1, c2);
    if Get(n, k).Some? {
      GetIn(n, k);
    }
  }

  /** The categories 1 of the records that file a link, in record order. */
  function FilingCat1s(recs: seq<Record>): seq<string> {
    if recs == [] then []
    else
      var f := ReadRecord(recs[|recs| - 1]);
      FilingCat1s(recs[..|recs| - 1]) + (if Slot(f).Some? then [f.cat1] else [])
  }

  /**
   * The categories 1 of the groups, and so the order pages are written in, are those of the
   * records that file a link, in the order of their first such record. A category 1 whose
   * records file nothing gets no key.
   */
  lemma {:induction false} GroupCat1Order(recs: seq<Record>)
    ensures Keys(GroupRecords(recs)) == FirstSeen(FilingCat1s(recs))
  {
    if recs != [] {
      var init := recs[..|recs| - 1];
      var f := ReadRecord(recs[|recs| - 1]);
      GroupCat1Order(init);
      match Slot(f)
      case None =>
        assert FilingCat1s(recs) == FilingCat1s(init) + [];
        assert FilingCat1s(init) + [] == FilingCat1s(init);
      case Some(key) =>
        AppendKeys(GroupRecords(init), f.cat1, f.cat2, key, LinkOf(f));
        Catalog.FirstSeenSnoc(FilingCat1s(init), f.cat1);
    }
  }

  // ---------------------------------------------------------------------------------------
  // Short records
  // ---------------------------------------------------------------------------------------

  /** Every record has all five columns. */
  predicate FullRecords(recs: seq<Record>) {
    forall i :: 0 <= i < |recs| ==> |recs[i]| >= 5
  }

  lemma FullRecordsSnoc(init: seq<Record>, last: Record)
    ensures FullRecords(init + [last]) <==> FullRecords(init) && |last| >= 5
  {
    var recs := init + [last];
    if FullRecords(recs) {
      forall i | 0 <= i < |init| ensures |init[i]| >= 5 {
        assert init[i] == recs[i];
      }
      assert last == recs[|init|];
    }
  }

  /**
   * As written, the run succeeds exactly when no record is short, and then builds the same
   * groups as the corrected reading.
   */
  lemma {:induction false} AsWrittenNeedsFullRecords(recs: seq<Record>)
    ensures GroupRecordsAsWritten(recs).Some? <==> FullRecords(recs)
    ensures GroupRecordsAsWritten(recs).Some? ==> GroupRecordsAsWritten(recs).value == GroupRecords(recs)
  {
    if recs != [] {
      var init, last := recs[..|recs| - 1], recs[|recs| - 1];
      AsWrittenNeedsFullRecords(init);
      assert recs == init + [last];
      FullRecordsSnoc(init, last);
      var before := GroupRecordsAsWritten(init);
      var read := ReadRecordAsWritten(last);
      if before.Some? && read.Some? {
        assert GroupRecordsAsWritten(recs) == Some(AddRecord(before.value, read.value));
      } else {
        assert GroupRecordsAsWritten(recs).None?;
      }
    }
  }

  /**
   * A record with fewer than five fields, such as the line "Shops;Food", stops the run as
   * written, whatever came before it.
   */
  lemma ShortRecordRaises(recs: seq<Record>, rec: Record)
    requires |rec| < 5
    ensures GroupRecordsAsWritten(recs + [rec]).None?
  {
    assert (recs + [rec])[..|recs|] == recs;
  }

  /** Read with missing columns empty, a short record has no link and so changes nothing. */
  lemma ShortRecordIgnored(recs: seq<Record>, rec: Record)
    requires |rec| < 5
    ensures GroupRecords(recs + [rec]) == GroupRecords(recs)
  {
    assert (recs + [rec])[..|recs|] == recs;
  }

  // ---------------------------------------------------------------------------------------
  // Pages (generate_pages)
  // ---------------------------------------------------------------------------------------

  /**
   * A page generate_pages writes: the category path it is for (category 3 empty for a
   * category-2 page), the file name, the title and breadcrumb of create_page_html, and the
   * links it lists.
   */
  datatype Page = Page(cat1: string, cat2: string, cat3: string, filename: string, heading: Heading,
                       items: seq<Catalog.Item>)

  /** `any(key != '_items' for key in keys)`. */
  function AnyOtherKey(keys: seq<string>): (r: bool)
    ensures r <==> exists k :: k in keys && k != DirectKey
  {
    if keys == [] then false
    else if keys[0] != DirectKey then
      assert keys[0] in keys;
      true
    else
      var r := AnyOtherKey(keys[1..]);
      assert forall k :: k in keys <==> k == keys[0] || k in keys[1..];
      r
  }

  /** The page of a category 3: file name from `f"{cat1}-{cat2}-{cat3}"`. */
  function SubPage(c1: string, c2: string, c3: string, items: seq<Catalog.Item>): Page {
    Page(c1, c2, c3, SanitizeFilename(c1 + "-" + c2 + "-" + c3) + ".html", PageHeading(c1, c2, c3), items)
  }

  /** The page of a category 2 without categories 3: file name from `f"{cat1}-{cat2}"`. */
  function DirectPage(c1: string, c2: string, items: seq<Catalog.Item>): Page {
    Page(c1, c2, [], SanitizeFilename(c1 + "-" + c2) + ".html", PageHeading(c1, c2, []), items)
  }

  /** The pages of the entries of a node in order, passing over `_items` and empty lists. */
  function SubPages(c1: string, c2: string, node: Node): seq<Page> {
    if node == [] then []
    else
      var (c3, items) := node[|node| - 1];
      SubPages(c1, c2, node[..|node| - 1])
      + (if c3 == DirectKey || items == [] then [] else [SubPage(c1, c2, c3, items)])
  }

  /**
   * The pages of categories[c1][c2]: one per category 3 when it has any key besides `_items`,
   * otherwise one for its own links if it has some.
   */
  function NodePages(c1: string, c2: string, node: Node): seq<Page> {
    if AnyOtherKey(Keys(node)) then SubPages(c1, c2, node)
    else DirectPages(c1, c2, GetOr(node, DirectKey, []))
  }

  /** The page written for a category 2 whose own links are `items`, if it has any. */
  function DirectPages(c1: string, c2: string, items: seq<Catalog.Item>): seq<Page> {
    if items != [] then [DirectPage(c1, c2, items)] else []
  }

  function Cat1Pages(c1: string, m: Cat1Groups): seq<Page> {
    if m == [] then []
    else Cat1Pages(c1, m[..|m| - 1]) + NodePages(c1, m[|m| - 1].0, m[|m| - 1].1)
  }

  /** Every page generate_pages writes, in the order it writes them. */
  function TreePages(g: Groups): seq<Page> {
    if g == [] then []
    else TreePages(g[..|g| - 1]) + Cat1Pages(g[|g| - 1].0, g[|g| - 1].1)
  }

  lemma SubPagesPrefix(c1: string, c2: string, node: Node, l: nat, before: seq<Page>)
    requires l < |node|
    ensures node[l].0 == DirectKey || node[l].1 == [] ==>
              before + SubPages(c1, c2, node[..l + 1]) == before + SubPages(c1, c2, node[..l])
    ensures node[l].0 != DirectKey && node[l].1 != [] ==>
              before + SubPages(c1, c2, node[..l + 1])
              == (before + SubPages(c1, c2, node[..l])) + [SubPage(c1, c2, node[l].0, node[l].1)]
  {
    assert node[..l + 1][..l] == node[..l];
    assert SubPages(c1, c2, node[..l]) + [] == SubPages(c1, c2, node[..l]);
  }

  lemma Cat1PagesPrefix(c1: string, m: Cat1Groups, j: nat, before: seq<Page>)
    requires j < |m|
    ensures before + Cat1Pages(c1, m[..j + 1]) == (before + Cat1Pages(c1, m[..j])) + NodePages(c1, m[j].0, m[j].1)
  {
    assert m[..j + 1][..j] == m[..j];
  }

  lemma TreePagesPrefix(g: Groups, i: nat)
    requires i < |g|
    ensures TreePages(g[..i + 1]) == TreePages(g[..i]) + Cat1Pages(g[i].0, g[i].1)
  {
    assert g[..i + 1][..i] == g[..i];
  }

  /**
   * The body of generate_pages for one categories[cat1][cat2]: the pages it writes are added
   * to `pages` and counted.
   */
  method WriteNodePages(cat1: string, cat2: string, cat2Data: Node, pages: seq<Page>, pagesCreated: nat)
    returns (pages': seq<Page>, pagesCreated': nat)
    requires pagesCreated == |pages|
    ensures pages' == pages + NodePages(cat1, cat2, cat2Data)
    ensures pagesCreated' == |pages'|
  {
    pages', pagesCreated' := pages, pagesCreated;
    if AnyOtherKey(Keys(cat2Data)) {
      for l := 0 to |cat2Data|
        invariant pages' == pages + SubPages(cat1, cat2, cat2Data[..l])
        invariant pagesCreated' == |pages'|
      {
        var cat3, items := cat2Data[l].0, cat2Data[l].1;
        SubPagesPrefix(cat1, cat2, cat2Data, l, pages);
        if cat3 == DirectKey || items == [] {
          continue;
        }
        var filename := SanitizeFilename(cat1 + "-" + cat2 + "-" + cat3) + ".html";
        pages' := pages' + [Page(cat1, cat2, cat3, filename, PageHeading(cat1, cat2, cat3), items)];
        pagesCreated' := pagesCreated' + 1;
      }
      assert cat2Data[..|cat2Data|] == cat2Data;
    } else {
      var items := GetOr(cat2Data, DirectKey, []);
      if items != [] {
        var filename := SanitizeFilename(cat1 + "-" + cat2) + ".html";
        pages' := pages' + [Page(cat1, cat2, [], filename, PageHeading(cat1, cat2, []), items)];
        pagesCreated' := pagesCreated' + 1;
      } else {
        assert pages' == pages + [];
      }
    }
  }

  /** The loop of generate_pages over the categories 2 of one category 1. */
  method WriteCat1Pages(cat1: string, cat1Data: Cat1Groups, pages: seq<Page>, pagesCreated: nat)
    returns (pages': seq<Page>, pagesCreated': nat)
    requires pagesCreated == |pages|
    ensures pages' == pages + Cat1Pages(cat1, cat1Data)
    ensures pagesCreated' == |pages'|
  {
    pages', pagesCreated' := pages, pagesCreated;
    assert pages' == pages + Cat1Pages(cat1, cat1Data[..0]);
    for j := 0 to |cat1Data|
      invariant pages' == pages + Cat1Pages(cat1, cat1Data[..j])
      invariant pagesCreated' == |pages'|
    {
      Cat1PagesPrefix(cat1, cat1Data, j, pages);
      pages', pagesCreated' := WriteNodePages(cat1, cat1Data[j].0, cat1Data[j].1, pages', pagesCreated');
    }
    assert cat1Data[..|cat1Data|] == cat1Data;
  }

  /**
   * generate_pages: the pages written, in order (the file writes), and the count it returns.
   */
  method GeneratePages(categories: Groups) returns (pages: seq<Page>, pagesCreated: nat)
    ensures pages == TreePages(categories)
    ensures pagesCreated == |pages|
  {
    pages := [];
    pagesCreated := 0;
    for i := 0 to |categories|
      invariant pages == TreePages(categories[..i])
      invariant pagesCreated == |pages|
    {
      TreePagesPrefix(categories, i);
      pages, pagesCreated := WriteCat1Pages(categories[i].0, categories[i].1, pages, pagesCreated);
    }
    assert categories[..|categories|] == categories;
  }

  // ---------------------------------------------------------------------------------------
  // Properties of the pages
  // ---------------------------------------------------------------------------------------

  /** The file name of a category path: the sanitised path joined by hyphens, with `.html`. */
  function FileName(c1: string, c2: string, c3: string): string {
    SanitizeFilename(if c3 != [] then c1 + "-" + c2 + "-" + c3 else c1 + "-" + c2) + ".html"
  }

  /** Every file name is a slug followed by `.html`. */
  lemma FileNameIsSlug(c1: string, c2: string, c3: string)
    ensures var r := FileName(c1, c2, c3); EndsWith(r, ".html") && IsSlug(r[..|r| - 5])
  {
    var s := SanitizeFilename(if c3 != [] then c1 + "-" + c2 + "-" + c3 else c1 + "-" + c2);
    assert FileName(c1, c2, c3) == s + ".html";
    assert (s + ".html")[..|s|] == s;
  }

  /** The page of a category path with its links. */
  function MakePage(c1: string, c2: string, c3: string, items: seq<Catalog.Item>): Page {
    Page(c1, c2, c3, FileName(c1, c2, c3), PageHeading(c1, c2, c3), items)
  }

  /**
   * A category-3 page is the page of its path, even for an empty key, whose `f"{cat1}-{cat2}-"`
   * sanitises like `f"{cat1}-{cat2}"`.
   */
  lemma SubPageIsMade(c1: string, c2: string, c3: string, items: seq<Catalog.Item>)
    ensures SubPage(c1, c2, c3, items) == MakePage(c1, c2, c3, items)
  {
    var path := c1 + "-" + c2 + "-" + c3;
    if c3 == [] {
      var pair := c1 + "-" + c2;
      assert path == pair + "-" + [] && pair + [] == pair;
      SanitizeIgnoresHyphen(pair, []);
      assert FileName(c1, c2, c3) == SanitizeFilename(pair) + ".html";
    } else {
      assert FileName(c1, c2, c3) == SanitizeFilename(path) + ".html";
    }
  }

  /** What every written page is: the page of its path, for a real category, with links. */
  predicate WellMade(p: Page) {
    p == MakePage(p.cat1, p.cat2, p.cat3, p.items) && p.items != [] && p.cat3 != DirectKey
  }

  lemma {:induction false} SubPagesWellMade(c1: string, c2: string, node: Node)
    ensures forall p :: p in SubPages(c1, c2, node) ==> WellMade(p) && p.cat1 == c1 && p.cat2 == c2
  {
    if node != [] {
      var (c3, items) := node[|node| - 1];
      var init := SubPages(c1, c2, node[..|node| - 1]);
      var last := if c3 == DirectKey || items == [] then [] else [SubPage(c1, c2, c3, items)];
      assert SubPages(c1, c2, node) == init + last;
      SubPagesWellMade(c1, c2, node[..|node| - 1]);
      if last != [] {
        SubPageWellMade(c1, c2, c3, items);
      }
    }
  }

  lemma SubPageWellMade(c1: string, c2: string, c3: string, items: seq<Catalog.Item>)
    requires items != [] && c3 != DirectKey
    ensures var p := SubPage(c1, c2, c3, items); WellMade(p) && p.cat1 == c1 && p.cat2 == c2
  {
    SubPageIsMade(c1, c2, c3, items);
  }

  lemma NodePagesWellMade(c1: string, c2: string, node: Node)
    ensures forall p :: p in NodePages(c1, c2, node) ==> WellMade(p) && p.cat1 == c1 && p.cat2 == c2
  {
    if AnyOtherKey(Keys(node)) {
      assert NodePages(c1, c2, node) == SubPages(c1, c2, node);
      SubPagesWellMade(c1, c2, node);
    } else {
      DirectPagesWellMade(c1, c2, GetOr(node, DirectKey, []));
    }
  }

  lemma DirectPagesWellMade(c1: string, c2: string, items: seq<Catalog.Item>)
    ensures forall p :: p in DirectPages(c1, c2, items) ==> WellMade(p) && p.cat1 == c1 && p.cat2 == c2
  {
    if items != [] {
      DirectPageIsMade(c1, c2, items);
    }
  }

  /** The page of a category 2 without categories 3 is the page of its path. */
  lemma DirectPageIsMade(c1: string, c2: string, items: seq<Catalog.Item>)
    ensures DirectPage(c1, c2, items) == MakePage(c1, c2, [], items)
  {
  }

  lemma {:induction false} Cat1PagesWellMade(c1: string, m: Cat1Groups)
    ensures forall p :: p in Cat1Pages(c1, m) ==> WellMade(p) && p.cat1 == c1
  {
    if m != [] {
      Cat1PagesWellMade(c1, m[..|m| - 1]);
      NodePagesWellMade(c1, m[|m| - 1].0, m[|m| - 1].1);
    }
  }

  /**
   * Every page generate_pages writes lists at least one link, is never for `_items`, and has
   * the file name, title and breadcrumb of its path.
   */
  lemma {:induction false} TreePagesWellMade(g: Groups)
    ensures forall p :: p in TreePages(g) ==> WellMade(p)
  {
    if g != [] {
      TreePagesWellMade(g[..|g| - 1]);
      Cat1PagesWellMade(g[|g| - 1].0, g[|g| - 1].1);
    }
  }

  /** The category-3 pages of a node are those of its entries other than `_items` with links. */
  lemma {:induction false} SubPagesMember(c1: string, c2: string, node: Node, c3: string, items: seq<Catalog.Item>)
    ensures MakePage(c1, c2, c3, items) in SubPages(c1, c2, node) <==> (c3, items) in node && c3 != DirectKey && items != []
  {
    if node != [] {
      var init, k, v := node[..|node| - 1], node[|node| - 1].0, node[|node| - 1].1;
      assert node == init + [(k, v)];
      assert (c3, items) in node <==> (c3, items) in init || (c3 == k && items == v);
      SubPagesMember(c1, c2, init, c3, items);
      var target, earlier := MakePage(c1, c2, c3, items), SubPages(c1, c2, init);
      if k == DirectKey || v == [] {
        assert SubPages(c1, c2, node) == earlier + [];
        assert earlier + [] == earlier;
      } else {
        SubPageIsMade(c1, c2, k, v);
        var own := MakePage(c1, c2, k, v);
        assert SubPages(c1, c2, node) == earlier + [own];
        assert target in earlier + [own] <==> target in earlier || target == own;
        assert target == own ==> target.cat3 == k && target.items == v;
      }
    }
  }

  /**
   * The pages of one node of well-formed groups: with a category 3, exactly one per category 3
   * holding links; without, exactly one for the node's own links if it has some.
   */
  lemma NodePagesMember(c1: string, c2: string, node: Node, c3: string, items: seq<Catalog.Item>)
    requires WellFormedNode(node)
    ensures MakePage(c1, c2, c3, items) in NodePages(c1, c2, node) <==>
            items != [] && c3 != DirectKey
            && if AnyOtherKey(Keys(node)) then Get(node, c3) == Some(items)
               else c3 == [] && GetOr(node, DirectKey, []) == items
  {
    if AnyOtherKey(Keys(node)) {
      KeyedNodePagesMember(c1, c2, node, c3, items);
    } else {
      PlainNodePagesMember(c1, c2, node, c3, items);
    }
  }

  /** A node with a category 3 has one page per category-3 list that is not `_items` and has links. */
  lemma KeyedNodePagesMember(c1: string, c2: string, node: Node, c3: string, items: seq<Catalog.Item>)
    requires NoDupKeys(node) && AnyOtherKey(Keys(node))
    ensures MakePage(c1, c2, c3, items) in NodePages(c1, c2, node) <==>
            items != [] && c3 != DirectKey && Get(node, c3) == Some(items)
  {
    assert NodePages(c1, c2, node) == SubPages(c1, c2, node);
    SubPagesMember(c1, c2, node, c3, items);
    if (c3, items) in node {
      MemberIsGet(node, (c3, items));
    }
    if Get(node, c3) == Some(items) {
      GetIn(node, c3);
    }
  }

  /** A node with no category 3 has at most one page: its own, when it has links. */
  lemma PlainNodePagesMember(c1: string, c2: string, node: Node, c3: string, items: seq<Catalog.Item>)
    requires !AnyOtherKey(Keys(node))
    ensures MakePage(c1, c2, c3, items) in NodePages(c1, c2, node) <==>
            items != [] && c3 != DirectKey && c3 == [] && GetOr(node, DirectKey, []) == items
  {
    DirectPagesMember(c1, c2, GetOr(node, DirectKey, []), c3, items);
  }

  lemma DirectPagesMember(c1: string, c2: string, own: seq<Catalog.Item>, c3: string, items: seq<Catalog.Item>)
    ensures MakePage(c1, c2, c3, items) in DirectPages(c1, c2, own) <==> items != [] && c3 == [] && own == items
  {
    DirectPagesOf(c1, c2, own);
    DirectPagesFields(c1, c2, own);
    MakePageFields(c1, c2, c3, items);
  }

  lemma DirectPagesOf(c1: string, c2: string, own: seq<Catalog.Item>)
    ensures own != [] ==> MakePage(c1, c2, [], own) in DirectPages(c1, c2, own)
  {
    if own != [] {
      DirectPageIsMade(c1, c2, own);
    }
  }

  /** The page of a node's own links, if any, has no category 3 and lists those links. */
  lemma DirectPagesFields(c1: string, c2: string, own: seq<Catalog.Item>)
    ensures forall p :: p in DirectPages(c1, c2, own) ==> own != [] && p.cat3 == [] && p.items == own
  {
  }

  lemma MakePageFields(c1: string, c2: string, c3: string, items: seq<Catalog.Item>)
    ensures MakePage(c1, c2, c3, items).cat3 == c3 && MakePage(c1, c2, c3, items).items == items
  {
  }

  /** A node without entries has no page. */
  lemma EmptyNodePages(c1: string, c2: string)
    ensures NodePages(c1, c2, []) == []
  {
  }

  /** Without repeated categories 2, the pages of a category 1 are those of each of its nodes. */
  lemma {:induction false} Cat1PagesMember(c1: string, m: Cat1Groups, p: Page)
    requires NoDupKeys(m)
    ensures p in Cat1Pages(c1, m) <==> p.cat1 == c1 && p in NodePages(c1, p.cat2, GetOr(m, p.cat2, []))
  {
    if m != [] {
      var init, last := m[..|m| - 1], m[|m| - 1];
      assert m == init + [last];
      var earlier, own := Cat1Pages(c1, init), NodePages(c1, last.0, last.1);
      assert Cat1Pages(c1, m) == earlier + own;
      NoDupSnoc(m);
      Cat1PagesMember(c1, init, p);
      NodePagesWellMade(c1, last.0, last.1);
      GetSnoc(init, last.0, last.1, p.cat2);
      if p.cat2 == last.0 {
        assert GetOr(init, p.cat2, []) == [];
        EmptyNodePages(c1, p.cat2);
        assert p !in earlier;
        assert GetOr(m, p.cat2, []) == last.1;
      } else {
        assert p !in own;
        assert GetOr(m, p.cat2, []) == GetOr(init, p.cat2, []);
      }
    }
  }

  /** Without repeated categories 1, the pages are those of each category 1. */
  lemma {:induction false} TreePagesOf(g: Groups, p: Page)
    requires NoDupKeys(g)
    ensures p in TreePages(g) <==> p in Cat1Pages(p.cat1, GetOr(g, p.cat1, []))
  {
    if g != [] {
      var init, last := g[..|g| - 1], g[|g| - 1];
      assert g == init + [last];
      var earlier, own := TreePages(init), Cat1Pages(last.0, last.1);
      assert TreePages(g) == earlier + own;
      NoDupSnoc(g);
      TreePagesOf(init, p);
      Cat1PagesWellMade(last.0, last.1);
      GetSnoc(init, last.0, last.1, p.cat1);
      if p.cat1 == last.0 {
        assert GetOr(init, p.cat1, []) == [];
        assert p !in earlier;
        assert GetOr(g, p.cat1, []) == last.1;
      } else {
        assert p !in own;
        assert GetOr(g, p.cat1, []) == GetOr(init, p.cat1, []);
      }
    }
  }

  /** In well-formed groups a page is written exactly when its node produces it. */
  lemma TreePagesMember(g: Groups, p: Page)
    requires WellFormedGroups(g)
    ensures p in TreePages(g) <==> p in NodePages(p.cat1, p.cat2, NodeOf(g, p.cat1, p.cat2))
  {
    TreePagesOf(g, p);
    WellFormedParts(g, p.cat1, p.cat2);
    Cat1PagesMember(p.cat1, GetOr(g, p.cat1, []), p);
    NodePagesWellMade(p.cat1, p.cat2, NodeOf(g, p.cat1, p.cat2));
  }

  // ---------------------------------------------------------------------------------------
  // From records to pages
  // ---------------------------------------------------------------------------------------

  /** Some record files a link under (c1, c2) with a category 3 (other than `_items`). */
  ghost predicate FilesCategory3(recs: seq<Record>, c1: string, c2: string) {
    exists k :: k != DirectKey && LinksAt(recs, c1, c2, k) != []
  }

  lemma NoEmptyKey(n: Node)
    requires WellFormedNode(n)
    ensures [] !in Keys(n)
  {
    forall i | 0 <= i < |n| ensures Keys(n)[i] != [] {
      assert n[i] in n;
    }
  }

  /** The stored list under a key, in well-formed groups, is what the records filed there. */
  lemma GroupGet(recs: seq<Record>, c1: string, c2: string, k: string)
    ensures WellFormedGroups(GroupRecords(recs))
    ensures Get(NodeOf(GroupRecords(recs), c1, c2), k).Some? <==> LinksAt(recs, c1, c2, k) != []
    ensures Get(NodeOf(GroupRecords(recs), c1, c2), k).Some? ==>
            Get(NodeOf(GroupRecords(recs), c1, c2), k).value == LinksAt(recs, c1, c2, k)
  {
    var g := GroupRecords(recs);
    GroupWellFormed(recs);
    WellFormedKeys(g, c1, c2, k);
    GroupLinks(recs, c1, c2, k);
  }

  /** A node has a key besides `_items` exactly when some record files a category-3 link there. */
  lemma FilesCategory3Keys(recs: seq<Record>, c1: string, c2: string)
    ensures AnyOtherKey(Keys(NodeOf(GroupRecords(recs), c1, c2))) <==> FilesCategory3(recs, c1, c2)
  {
    var node := NodeOf(GroupRecords(recs), c1, c2);
    if AnyOtherKey(Keys(node)) {
      var k :| k in Keys(node) && k != DirectKey;
      GroupGet(recs, c1, c2, k);
    }
    if FilesCategory3(recs, c1, c2) {
      var k :| k != DirectKey && LinksAt(recs, c1, c2, k) != [];
      GroupGet(recs, c1, c2, k);
    }
  }

  /**
   * A category 3 gets a page exactly when records file links under it, and the page lists
   * those links in record order.
   */
  lemma Category3Page(recs: seq<Record>, c1: string, c2: string, c3: string, items: seq<Catalog.Item>)
    requires c3 != [] && c3 != DirectKey
    ensures MakePage(c1, c2, c3, items) in TreePages(GroupRecords(recs)) <==>
            items == LinksAt(recs, c1, c2, c3) && items != []
  {
    var g := GroupRecords(recs);
    var node := NodeOf(g, c1, c2);
    GroupGet(recs, c1, c2, c3);
    TreePagesMember(g, MakePage(c1, c2, c3, items));
    WellFormedParts(g, c1, c2);
    NodePagesMember(c1, c2, node, c3, items);
  }

  /**
   * A category 2 gets a page of its own links exactly when it has some and no record gives it
   * a category 3: links filed directly under a category 2 that also has categories 3 appear on
   * no page.
   */
  lemma Category2Page(recs: seq<Record>, c1: string, c2: string, items: seq<Catalog.Item>)
    ensures MakePage(c1, c2, [], items) in TreePages(GroupRecords(recs)) <==>
            items == LinksAt(recs, c1, c2, DirectKey) && items != [] && !FilesCategory3(recs, c1, c2)
  {
    var g := GroupRecords(recs);
    var node := NodeOf(g, c1, c2);
    GroupGet(recs, c1, c2, DirectKey);
    TreePagesMember(g, MakePage(c1, c2, [], items));
    WellFormedParts(g, c1, c2);
    NodePagesMember(c1, c2, node, [], items);
    NoEmptyKey(node);
    FilesCategory3Keys(recs, c1, c2);
  }
}
