/**
 * The menu side of the site (js/script.js): its own reading of the catalogue into a menu
 * tree, in which the value under a category 2 is either a map from category 3 to links or a
 * plain list of links, and the URL of a category page.
 */
module Menu {
  import opened Wrappers
  import opened Text
  import opened Assoc
  import opened CsvLine
  import opened Catalog
  import opened Slug

  /**
   * The value at `categories[cat1][cat2]`: a plain object mapping each category 3 to its
   * links, or an array of links. A category-3 row that reaches an array stores its list as a
   * named property of the array, kept here in `named`.
   */
  datatype Cat2Value =
    | Subs(lists: AList<seq<Item>>)
    | Links(items: seq<Item>, named: AList<seq<Item>>)

  /** category 1 -> category 2 -> value, each level in first-seen order. */
  type MenuTree = AList<AList<Cat2Value>>

  /** The category-3 lists of a value, whichever its shape. */
  function CatLists(v: Cat2Value): AList<seq<Item>> {
    match v
    case Subs(lists) => lists
    case Links(_, named) => named
  }

  /** The links stored directly under the category 2 (none while it is a map). */
  function Direct(v: Cat2Value): seq<Item> {
    match v
    case Subs(_) => []
    case Links(items, _) => items
  }

  predicate HasLink(f: Fields) {
    f.nom != [] && f.lien != []
  }

  /** A category-3 row on the lists of its category 2: the list is created if missing, and the link appended when there is one. */
  function AddToList(l: AList<seq<Item>>, f: Fields): (r: AList<seq<Item>>)
    ensures forall c3 :: Get(r, c3) ==
              if c3 == f.cat3 then Some(GetOr(l, c3, []) + (if HasLink(f) then [Item(f.nom, f.lien)] else []))
              else Get(l, c3)
  {
    var l1 := if f.cat3 in Keys(l) then l else Put(l, f.cat3, []);
    assert Get(l1, f.cat3) == Some(GetOr(l, f.cat3, []));
    if HasLink(f) then Put(l1, f.cat3, GetOr(l1, f.cat3, []) + [Item(f.nom, f.lien)])
    else assert GetOr(l, f.cat3, []) + [] == GetOr(l, f.cat3, []); l1
  }

  /**
   * What a row with category 3, or with a name and a link, does to the value of its
   * category 2. With a category 3 the value keeps its shape and its list for that category is
   * updated. Without a category 3, a row with a link turns a map into an empty list (dropping
   * every category-3 list) and then appends its link; a row without a link changes nothing.
   */
  function AddToValue(v: Cat2Value, f: Fields): (r: Cat2Value)
    ensures f.cat3 != [] ==> r.Subs? == v.Subs? && Direct(r) == Direct(v) && CatLists(r) == AddToList(CatLists(v), f)
    ensures f.cat3 == [] && HasLink(f) ==>
              r == Links(Direct(v) + [Item(f.nom, f.lien)], if v.Links? then v.named else [])
    ensures f.cat3 == [] && !HasLink(f) ==> r == v
  {
    var item := Item(f.nom, f.lien);
    if f.cat3 != [] then
      match v
      case Subs(lists) => Subs(AddToList(lists, f))
      case Links(items, named) => Links(items, AddToList(named, f))
    else if HasLink(f) then
      match v
      case Subs(_) => assert Direct(v) + [item] == [item]; Links([item], [])
      case Links(items, named) => Links(items + [item], named)
    else v
  }

  /** The category-2 level of a row: the entry of f.cat2, created empty, gets the row. */
  function AddToCat2(m: AList<Cat2Value>, f: Fields): AList<Cat2Value> {
    var m1 := if f.cat2 in Keys(m) then m else Put(m, f.cat2, Subs([]));
    Put(m1, f.cat2, AddToValue(GetOr(m1, f.cat2, Subs([])), f))
  }

  /** One iteration of the loop of parseCSV, for a row whose category 1 is not empty. */
  function AddRow(menu: MenuTree, f: Fields): MenuTree {
    var m0 := if f.cat1 in Keys(menu) then menu else Put(menu, f.cat1, []);
    if f.cat2 == [] then m0 else Put(m0, f.cat1, AddToCat2(GetOr(m0, f.cat1, []), f))
  }

  function BuildMenu(rows: seq<Fields>): MenuTree {
    if rows == [] then [] else AddRow(BuildMenu(rows[..|rows| - 1]), rows[|rows| - 1])
  }

  /** `categories[cat1][cat2]`. */
  function ValueAt(menu: MenuTree, c1: string, c2: string): Option<Cat2Value> {
    match Get(menu, c1)
    case Some(m) => Get(m, c2)
    case None => None
  }

  // ---------------------------------------------------------------------------------------
  // Reading the lines
  // ---------------------------------------------------------------------------------------

  /** What every row the parser keeps satisfies: trimmed fields and a category 1. */
  predicate KeptRow(f: Fields) {
    f.cat1 != [] && FieldsTrimmed(f)
  }

  /** What one line contributes: its five fields when it has them and a category 1. */
  function LineRows(raw: string): (r: seq<Fields>)
    ensures r == [] || (|r| == 1 && KeptRow(r[0]))
  {
    var read := ReadFields(raw);
    if read.Some? && read.value.cat1 != [] then [read.value] else []
  }

  /**
   * Which lines are kept: exactly those with five fields and a category 1, each kept as its
   * fields; a line with fewer than five fields yields nothing.
   */
  lemma LineRowsKept(raw: string)
    ensures LineRows(raw) != [] <==> FieldCount(raw) >= 5 && ReadFields(raw).value.cat1 != []
    ensures LineRows(raw) != [] ==> LineRows(raw) == [ReadFields(raw).value]
    ensures FieldCount(raw) < 5 ==> LineRows(raw) == []
  {
  }

  /** A line written from five trimmed fields without `;` and with a category 1 is kept as them. */
  lemma WrittenLineRows(f: Fields)
    requires FieldsTrimmed(f) && NoDelimiter(f) && f.cat1 != []
    ensures LineRows(WriteFields(f)) == [f]
  {
    ReadWrittenFields(f);
  }

  /** The rows of a run of lines, in line order. */
  function RowsOf(lines: seq<string>): (rows: seq<Fields>)
    ensures |rows| <= |lines|
  {
    if lines == [] then [] else RowsOf(lines[..|lines| - 1]) + LineRows(lines[|lines| - 1])
  }

  /** Reading two runs of lines one after the other gives their rows one after the other. */
  lemma {:induction false} RowsOfAppend(a: seq<string>, b: seq<string>)
    ensures RowsOf(a + b) == RowsOf(a) + RowsOf(b)
  {
    if b != [] {
      var init, last := b[..|b| - 1], b[|b| - 1];
      assert (a + b)[..|a + b| - 1] == a + init;
      assert (a + b)[|a + b| - 1] == last;
      assert RowsOf(a + b) == RowsOf(a + init) + LineRows(last);
      assert RowsOf(b) == RowsOf(init) + LineRows(last);
      RowsOfAppend(a, init);
    } else {
      assert a + b == a;
    }
  }

  /** A row is kept exactly when some line reads as it. */
  lemma {:induction false} RowsOfMember(lines: seq<string>, f: Fields)
    ensures f in RowsOf(lines) <==> exists i :: 0 <= i < |lines| && LineRows(lines[i]) == [f]
  {
    if f in RowsOf(lines) {
      var i := KeepingLine(lines, f);
    }
    if exists i :: 0 <= i < |lines| && LineRows(lines[i]) == [f] {
      var i :| 0 <= i < |lines| && LineRows(lines[i]) == [f];
      KeptLine(lines, i);
    }
  }

  /** Every row read from the lines has five fields and a category 1. */
  lemma RowsOfKept(lines: seq<string>, f: Fields)
    requires f in RowsOf(lines)
    ensures KeptRow(f)
  {
    var i := KeepingLine(lines, f);
  }

  lemma {:induction false} KeepingLine(lines: seq<string>, f: Fields) returns (i: nat)
    requires f in RowsOf(lines)
    ensures i < |lines| && LineRows(lines[i]) == [f]
  {
    var init, last := lines[..|lines| - 1], lines[|lines| - 1];
    assert RowsOf(lines) == RowsOf(init) + LineRows(last);
    if f in RowsOf(init) {
      i := KeepingLine(init, f);
      assert lines[i] == init[i];
    } else {
      var r := LineRows(last);
      assert f in r;
      assert r == [r[0]] && r[0] == f;
      i := |lines| - 1;
    }
  }

  lemma {:induction false} KeptLine(lines: seq<string>, i: nat)
    requires i < |lines| && LineRows(lines[i]) != []
    ensures LineRows(lines[i])[0] in RowsOf(lines)
  {
    var init := lines[..|lines| - 1];
    if i < |lines| - 1 {
      assert lines[i] == init[i];
      KeptLine(init, i);
    }
  }

  /** The rows of a whole catalogue text: every line but the header. */
  function CsvRows(csvText: string): seq<Fields> {
    RowsOf(Split(csvText, '\n')[1..])
  }

  /** One line of the loop: the menu gets the line's row, if it yields one. */
  lemma MenuStep(lines: seq<string>, i: nat)
    requires 1 <= i < |lines|
    ensures BuildMenu(RowsOf(lines[1..i + 1])) ==
              if LineRows(lines[i]) == [] then BuildMenu(RowsOf(lines[1..i]))
              else AddRow(BuildMenu(RowsOf(lines[1..i])), LineRows(lines[i])[0])
  {
    if LineRows(lines[i]) == [] {
      RowsOfSkip(lines, i);
    } else {
      RowsOfKeep(lines, i, LineRows(lines[i])[0]);
    }
  }

  /** A line that yields no row leaves the menu as it is. */
  lemma RowsOfSkip(lines: seq<string>, i: nat)
    requires 1 <= i < |lines| && LineRows(lines[i]) == []
    ensures RowsOf(lines[1..i + 1]) == RowsOf(lines[1..i])
  {
    RowsOfStep(lines, i);
    assert RowsOf(lines[1..i]) + [] == RowsOf(lines[1..i]);
  }

  /** A line that yields a row adds that row to the menu. */
  lemma RowsOfKeep(lines: seq<string>, i: nat, f: Fields)
    requires 1 <= i < |lines| && LineRows(lines[i]) == [f]
    ensures BuildMenu(RowsOf(lines[1..i + 1])) == AddRow(BuildMenu(RowsOf(lines[1..i])), f)
  {
    RowsOfStep(lines, i);
    BuildMenuStep(RowsOf(lines[1..i]), f);
  }

  lemma RowsOfStep(lines: seq<string>, i: nat)
    requires 1 <= i < |lines|
    ensures RowsOf(lines[1..i + 1]) == RowsOf(lines[1..i]) + LineRows(lines[i])
  {
    var seg := lines[1..i + 1];
    assert seg[..|seg| - 1] == lines[1..i];
    assert seg[|seg| - 1] == lines[i];
  }

  lemma BuildMenuStep(rows: seq<Fields>, f: Fields)
    ensures BuildMenu(rows + [f]) == AddRow(BuildMenu(rows), f)
  {
    assert (rows + [f])[..|rows|] == rows;
  }

  /** parseCSV of js/script.js. */
  method ParseCsv(csvText: string) returns (categories: MenuTree)
    ensures categories == BuildMenu(CsvRows(csvText))
  {
    var lines := Split(csvText, '\n');
    categories := [];
    NoLinesNoMenu(lines);
    for i := 1 to |lines|
      invariant categories == BuildMenu(RowsOf(lines[1..i]))
    {
      categories := AddLine(categories, lines, i);
    }
    AllLines(lines);
  }

  lemma NoLinesNoMenu(lines: seq<string>)
    requires |lines| >= 1
    ensures BuildMenu(RowsOf(lines[1..1])) == []
  {
    assert lines[1..1] == [];
  }

  lemma AllLines(lines: seq<string>)
    requires |lines| >= 1
    ensures RowsOf(lines[1..|lines|]) == RowsOf(lines[1..])
  {
    assert lines[1..] == lines[1..|lines|];
  }

  /**
   * One pass of the loop of parseCSV: line `i` is read and its row, if it yields one, is added
   * to the menu built so far.
   */
  method AddLine(categories: MenuTree, lines: seq<string>, i: nat) returns (next: MenuTree)
    requires 1 <= i < |lines| && categories == BuildMenu(RowsOf(lines[1..i]))
    ensures next == BuildMenu(RowsOf(lines[1..i + 1]))
  {
    var row := ReadRow(lines[i]);
    MenuStep(lines, i);
    next := categories;
    if row != [] {
      next := AddRow(categories, row[0]);
    }
  }

  /** The body of the loop of parseCSV up to the update: the line's row, if it yields one. */
  method ReadRow(raw: string) returns (row: seq<Fields>)
    ensures row == LineRows(raw)
  {
    var line := Trim(JsWhiteSpace, raw);
    if line == [] {
      UnreadLineRows(raw);
      return [];
    }
    var parts := Split(line, ';');
    if |parts| < 5 {
      UnreadLineRows(raw);
      return [];
    }
    var f := TrimFields(parts);
    ReadLineRows(raw, parts, f);
    row := if f.cat1 != [] then [f] else [];
  }

  /** A line that is blank or has fewer than five fields yields no row. */
  lemma UnreadLineRows(raw: string)
    requires Trim(JsWhiteSpace, raw) == [] || |Split(Trim(JsWhiteSpace, raw), ';')| < 5
    ensures LineRows(raw) == []
  {
  }

  /** A line read as `f` yields it exactly when its category 1 is set. */
  lemma ReadLineRows(raw: string, parts: seq<string>, f: Fields)
    requires Trim(JsWhiteSpace, raw) != [] && parts == Split(Trim(JsWhiteSpace, raw), ';')
    requires |parts| >= 5 && f == TrimFields(parts)
    ensures LineRows(raw) == if f.cat1 != [] then [f] else []
  {
    assert ReadFields(raw) == Some(f);
  }

  // ---------------------------------------------------------------------------------------
  // Properties of the menu
  // ---------------------------------------------------------------------------------------

  /** How one row changes the menu: keys of both levels, and the only value that changes. */
  lemma AddRowStep(menu: MenuTree, f: Fields, c1: string, c2: string)
    ensures Keys(AddRow(menu, f)) == if f.cat1 in Keys(menu) then Keys(menu) else Keys(menu) + [f.cat1]
    ensures Keys(GetOr(AddRow(menu, f), c1, [])) ==
      if c1 == f.cat1 && f.cat2 != [] && f.cat2 !in Keys(GetOr(menu, c1, []))
      then Keys(GetOr(menu, c1, [])) + [f.cat2]
      else Keys(GetOr(menu, c1, []))
    ensures ValueAt(AddRow(menu, f), c1, c2) ==
      if c1 == f.cat1 && c2 == f.cat2 && c2 != []
      then Some(AddToValue(match ValueAt(menu, c1, c2) case Some(v) => v case None => Subs([]), f))
      else ValueAt(menu, c1, c2)
  {
  }

  /** The category 1 of every row, in row order. */
  function RowCat1s(rows: seq<Fields>): seq<string> {
    if rows == [] then [] else RowCat1s(rows[..|rows| - 1]) + [rows[|rows| - 1].cat1]
  }

  /** The non-empty categories 2 of the rows with category 1 `c1`, in row order. */
  function RowCat2s(rows: seq<Fields>, c1: string): (col: seq<string>)
    ensures [] !in col
  {
    if rows == [] then []
    else
      var f := rows[|rows| - 1];
      RowCat2s(rows[..|rows| - 1], c1) + (if f.cat1 == c1 && f.cat2 != [] then [f.cat2] else [])
  }

  /**
   * Every row creates its category 1, whether or not it has a link, and the categories 1
   * come in the order of their first row.
   */
  lemma {:induction false} BuildMenuCat1Order(rows: seq<Fields>)
    ensures Keys(BuildMenu(rows)) == FirstSeen(RowCat1s(rows))
  {
    if rows != [] {
      var init, f := rows[..|rows| - 1], rows[|rows| - 1];
      BuildMenuCat1Order(init);
      AddRowStep(BuildMenu(init), f, [], []);
      FirstSeenSnoc(RowCat1s(init), f.cat1);
    }
  }

  /**
   * Under each category 1 the categories 2 are those of its rows with a non-empty category 2,
   * in the order of their first row; a row with an empty category 2 stores nothing below its
   * category 1.
   */
  lemma {:induction false} BuildMenuCat2Order(rows: seq<Fields>, c1: string)
    ensures Keys(GetOr(BuildMenu(rows), c1, [])) == FirstSeen(RowCat2s(rows, c1))
    ensures [] !in Keys(GetOr(BuildMenu(rows), c1, []))
  {
    if rows != [] {
      var init, f := rows[..|rows| - 1], rows[|rows| - 1];
      var menu := BuildMenu(init);
      assert BuildMenu(rows) == AddRow(menu, f);
      BuildMenuCat2Order(init, c1);
      AddRowStep(menu, f, c1, []);
      var col := RowCat2s(init, c1);
      if f.cat1 == c1 && f.cat2 != [] {
        assert RowCat2s(rows, c1) == col + [f.cat2];
        FirstSeenSnoc(col, f.cat2);
      } else {
        assert RowCat2s(rows, c1) == col;
      }
    }
  }

  /**
   * A later row with a link and no category 3 replaces a category-2 map by a list holding only
   * its own link: every category-3 list collected so far under that category 2 is lost.
   */
  lemma LinkRowDiscardsLists(rows: seq<Fields>, f: Fields, lists: AList<seq<Item>>)
    requires f.cat2 != [] && f.cat3 == [] && HasLink(f)
    requires ValueAt(BuildMenu(rows), f.cat1, f.cat2) == Some(Subs(lists))
    ensures ValueAt(BuildMenu(rows + [f]), f.cat1, f.cat2) == Some(Links([Item(f.nom, f.lien)], []))
  {
    BuildMenuStep(rows, f);
    AddRowStep(BuildMenu(rows), f, f.cat1, f.cat2);
  }

  /**
   * A row with a category 3 but no name creates an empty list, so unlike the tree of
   * js/data.js the menu can hold empty category-3 lists.
   */
  lemma EmptyListFromRow(f: Fields)
    requires f.cat1 != [] && f.cat2 != [] && f.cat3 != [] && f.nom == []
    ensures ValueAt(BuildMenu([f]), f.cat1, f.cat2) == Some(Subs([(f.cat3, [])]))
  {
    assert [f][..0] == [];
    AddRowStep([], f, f.cat1, f.cat2);
  }

  /**
   * A row with a link and no category 3 stores its link exactly as read (trimmed only): unless
   * it already starts with "http" it differs from the link js/data.js keeps for the same row.
   */
  lemma LinkNotNormalised(f: Fields)
    requires f.cat1 != [] && f.cat2 != [] && f.cat3 == [] && HasLink(f)
    ensures ValueAt(BuildMenu([f]), f.cat1, f.cat2) == Some(Links([Item(f.nom, f.lien)], []))
    ensures !("http" <= f.lien) ==> f.lien != NormalizeFbUrl(f.lien)
  {
    assert [f][..0] == [];
    AddRowStep([], f, f.cat1, f.cat2);
  }

  /** The (name, link) pairs of the rows that have both, as read from the line. */
  function RowItems(rows: seq<Fields>): (r: set<Item>)
    ensures forall it :: it in r ==> it.nom != [] && it.lien != []
  {
    if rows == [] then {}
    else
      var f := rows[|rows| - 1];
      RowItems(rows[..|rows| - 1]) + (if HasLink(f) then {Item(f.nom, f.lien)} else {})
  }

  predicate ListsWithin(l: AList<seq<Item>>, items: set<Item>) {
    forall p, it :: p in l && it in p.1 ==> it in items
  }

  predicate ValueWithin(v: Cat2Value, items: set<Item>) {
    ListsWithin(CatLists(v), items) && forall it :: it in Direct(v) ==> it in items
  }

  /** Every link stored anywhere in the menu is one of `items`. */
  predicate MenuWithin(menu: MenuTree, items: set<Item>) {
    forall p, q :: p in menu && q in p.1 ==> ValueWithin(q.1, items)
  }

  lemma AddToListWithin(l: AList<seq<Item>>, f: Fields, items: set<Item>)
    requires f.cat3 != [] && ListsWithin(l, items) && (HasLink(f) ==> Item(f.nom, f.lien) in items)
    ensures ListsWithin(AddToList(l, f), items)
  {
    var l1 := if f.cat3 in Keys(l) then l else Put(l, f.cat3, []);
    assert ListsWithin(l1, items);
    if HasLink(f) {
      GetIn(l1, f.cat3);
      var v := GetOr(l1, f.cat3, []) + [Item(f.nom, f.lien)];
      assert forall it :: it in v ==> it in items;
      assert AddToList(l, f) == Put(l1, f.cat3, v);
    }
  }

  lemma AddRowWithin(menu: MenuTree, f: Fields, items: set<Item>)
    requires MenuWithin(menu, items) && (HasLink(f) ==> Item(f.nom, f.lien) in items)
    ensures MenuWithin(AddRow(menu, f), items)
  {
    var m0 := if f.cat1 in Keys(menu) then menu else Put(menu, f.cat1, []);
    if f.cat1 !in Keys(menu) {
      PutMenuWithin(menu, f.cat1, [], items);
    }
    if f.cat2 != [] {
      var m := GetOr(m0, f.cat1, []);
      GetIn(m0, f.cat1);
      AddToCat2Within(m, f, items);
      PutMenuWithin(m0, f.cat1, AddToCat2(m, f), items);
    }
  }

  lemma AddToCat2Within(m: AList<Cat2Value>, f: Fields, items: set<Item>)
    requires forall q :: q in m ==> ValueWithin(q.1, items)
    requires HasLink(f) ==> Item(f.nom, f.lien) in items
    ensures forall q :: q in AddToCat2(m, f) ==> ValueWithin(q.1, items)
  {
    var m1 := if f.cat2 in Keys(m) then m else Put(m, f.cat2, Subs([]));
    assert forall q :: q in m1 ==> ValueWithin(q.1, items);
    var v := GetOr(m1, f.cat2, Subs([]));
    GetIn(m1, f.cat2);
    assert ValueWithin(v, items);
    if f.cat3 != [] {
      AddToListWithin(CatLists(v), f, items);
    }
    assert ValueWithin(AddToValue(v, f), items);
  }

  lemma PutMenuWithin(menu: MenuTree, k: string, m: AList<Cat2Value>, items: set<Item>)
    requires MenuWithin(menu, items) && forall q :: q in m ==> ValueWithin(q.1, items)
    ensures MenuWithin(Put(menu, k, m), items)
  {
  }

  /** Every link in the menu is the (name, link) pair of some row that has both, untouched. */
  lemma {:induction false} BuildMenuWithin(rows: seq<Fields>)
    ensures MenuWithin(BuildMenu(rows), RowItems(rows))
  {
    if rows != [] {
      var init, f := rows[..|rows| - 1], rows[|rows| - 1];
      BuildMenuWithin(init);
      assert MenuWithin(BuildMenu(init), RowItems(rows));
      AddRowWithin(BuildMenu(init), f, RowItems(rows));
    }
  }

  // ---------------------------------------------------------------------------------------
  // Page URLs
  // ---------------------------------------------------------------------------------------

  /**
   * generatePageUrl: the template-literal join of the parts (category 3 only when non-empty)
   * run through the same replacement chain as generateSlug. It is always the page of the
   * slug generateSlug gives, so the menu links and the slug decoder agree.
   */
  function GeneratePageUrl(c1: string, c2: string, c3: string): (r: string)
    ensures r == "pages/" + GenerateSlug(c1, c2, c3) + ".html"
  {
    var safeName := if c3 != [] then c1 + "-" + c2 + "-" + c3 else c1 + "-" + c2;
    assert safeName == SlugSource(c1, c2, c3);
    "pages/" + Slugify(safeName) + ".html"
  }
}
