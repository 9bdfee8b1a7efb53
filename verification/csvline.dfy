/**
 * The line-level reading shared by both JavaScript catalogue parsers: trim the line, skip it
 * when it is empty, split it on `;`, skip it when fewer than five fields result, and trim the
 * first five fields (category 1, category 2, category 3, name, link); later fields are ignored.
 */
module CsvLine {
  import opened Wrappers
  import opened Text

  datatype Fields = Fields(cat1: string, cat2: string, cat3: string, nom: string, lien: string)

  predicate FieldsTrimmed(f: Fields) {
    && IsTrimmed(JsWhiteSpace, f.cat1) && IsTrimmed(JsWhiteSpace, f.cat2) && IsTrimmed(JsWhiteSpace, f.cat3)
    && IsTrimmed(JsWhiteSpace, f.nom) && IsTrimmed(JsWhiteSpace, f.lien)
  }

  predicate NoDelimiter(f: Fields) {
    ';' !in f.cat1 && ';' !in f.cat2 && ';' !in f.cat3 && ';' !in f.nom && ';' !in f.lien
  }

  function FieldCount(raw: string): nat {
    |Split(Trim(JsWhiteSpace, raw), ';')|
  }

  function ReadFields(raw: string): (r: Option<Fields>)
    ensures r.Some? <==> FieldCount(raw) >= 5
    ensures r.Some? ==> FieldsTrimmed(r.value) && NoDelimiter(r.value)
  {
    var line := Trim(JsWhiteSpace, raw);
    if line == [] then None
    else
      var parts := Split(line, ';');
      if |parts| < 5 then None else Some(TrimFields(parts))
  }

  /** The first five fields of a split line, each trimmed; later fields are ignored. */
  function TrimFields(parts: seq<string>): (f: Fields)
    requires |parts| >= 5
    ensures FieldsTrimmed(f)
    ensures (forall k :: 0 <= k < 5 ==> ';' !in parts[k]) ==> NoDelimiter(f)
  {
    Fields(Trim(JsWhiteSpace, parts[0]), Trim(JsWhiteSpace, parts[1]), Trim(JsWhiteSpace, parts[2]),
           Trim(JsWhiteSpace, parts[3]), Trim(JsWhiteSpace, parts[4]))
  }

  /** The line `a;b;c;d;e` for the five fields. */
  function WriteFields(f: Fields): string {
    f.cat1 + ";" + f.cat2 + ";" + f.cat3 + ";" + f.nom + ";" + f.lien
  }

  lemma WriteIsJoin(f: Fields)
    ensures WriteFields(f) == Join([f.cat1, f.cat2, f.cat3, f.nom, f.lien], ';')
  {
    var parts := [f.cat1, f.cat2, f.cat3, f.nom, f.lien];
    assert Join(parts[4..], ';') == f.lien;
    assert Join(parts[3..], ';') == f.nom + ";" + f.lien;
    assert Join(parts[2..], ';') == f.cat3 + ";" + (f.nom + ";" + f.lien);
    assert Join(parts[1..], ';') == f.cat2 + ";" + (f.cat3 + ";" + (f.nom + ";" + f.lien));
    assert Join(parts, ';') == f.cat1 + ";" + (f.cat2 + ";" + (f.cat3 + ";" + (f.nom + ";" + f.lien)));
  }

  lemma WrittenLineTrimmed(f: Fields)
    requires FieldsTrimmed(f) && f.cat1 != []
    ensures Trim(JsWhiteSpace, WriteFields(f)) == WriteFields(f)
  {
    var line := WriteFields(f);
    assert line == f.cat1 + (";" + f.cat2 + ";" + f.cat3 + ";" + f.nom + ";" + f.lien);
    assert line[0] == f.cat1[0];
    assert line == (f.cat1 + ";" + f.cat2 + ";" + f.cat3 + ";" + f.nom + ";") + f.lien;
    assert line[|line| - 1] == (if f.lien == [] then ';' else f.lien[|f.lien| - 1]);
    TrimOfTrimmed(JsWhiteSpace, line);
  }

  /** Five trimmed fields written with `;` between them are read back as they were written. */
  lemma ReadWrittenFields(f: Fields)
    requires FieldsTrimmed(f) && NoDelimiter(f)
    requires f.cat1 != []
    ensures ReadFields(WriteFields(f)) == Some(f)
  {
    var parts := [f.cat1, f.cat2, f.cat3, f.nom, f.lien];
    WrittenLineTrimmed(f);
    WriteIsJoin(f);
    SplitJoin(parts, ';');
    TrimOfTrimmed(JsWhiteSpace, f.cat1);
    TrimOfTrimmed(JsWhiteSpace, f.cat2);
    TrimOfTrimmed(JsWhiteSpace, f.cat3);
    TrimOfTrimmed(JsWhiteSpace, f.nom);
    TrimOfTrimmed(JsWhiteSpace, f.lien);
  }
}
