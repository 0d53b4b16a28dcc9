/** Ingestion: every row after the header becomes one template, and every
    non-blank `field.name` cell of it, with the five cells after it, one of
    its fields. Templates and fields are resolved against the catalog as they
    are built, so what one row creates is found by the rows after it. */
module Ingestion {

  import opened Wrappers
  import opened Schema
  import opened Remote
  import opened Entities
  import Validation

  /** Reading `row` during ingestion indexes nothing out of range: it has a
      first cell, and a row that is not skipped has the five template cells,
      a header cell above every non-blank cell, and the five cells after every
      non-blank `field.name` cell. */
  predicate RowIngestible(header: seq<string>, row: seq<string>)
  {
    && |row| >= 1
    && (row[0] != TitleColumn ==>
          && |row| >= 5
          && forall c :: 0 <= c < |row| && row[c] != "" ==>
               c < |header| && (header[c] == FieldNameColumn ==> c + 5 < |row|))
  }

  /** Ingesting `sheet` raises no IndexError. */
  predicate Ingestible(sheet: Sheet)
  {
    forall r :: 0 <= r < |sheet| ==> RowIngestible(sheet[0], sheet[r])
  }

  /** Column `c` of `row` starts a field: a non-blank cell under `field.name`. */
  predicate IsFieldColumn(header: seq<string>, row: seq<string>, c: nat)
    requires c < |row|
  {
    row[c] != "" && c < |header| && header[c] == FieldNameColumn
  }

  datatype Fields = Fields(entries: seq<FieldEntry>, after: Snapshot)

  datatype Templates = Templates(entries: seq<TemplateEntry>, after: Snapshot)

  /** The field built from the six cells starting at column `k`. */
  function FieldFrom(s: Snapshot, row: seq<string>, k: nat): (r: Fields)
    requires k + 5 < |row|
    ensures |r.entries| == 1 && FromCells(r.entries[0], row, k)
  {
    var f := ResolveField(s, row[k], row[k + 1], row[k + 2]);
    Fields([FieldEntry(f.id, row[k], f.fieldType, f.description,
                       TextFlag(row[k + 3]), TextFlag(row[k + 4]), row[k + 5])], f.after)
  }

  /** The fields built from columns `0 .. c-1` of a row, in column order,
      starting from catalog state `s`. */
  function RowFields(header: seq<string>, row: seq<string>, c: nat, s: Snapshot): (r: Fields)
    requires RowIngestible(header, row) && row[0] != TitleColumn && c <= |row|
    ensures |r.entries| <= c
  {
    if c == 0 then Fields([], s)
    else
      var prev := RowFields(header, row, c - 1, s);
      if IsFieldColumn(header, row, c - 1) then
        var f := FieldFrom(prev.after, row, c - 1);
        Fields(prev.entries + f.entries, f.after)
      else prev
  }

  /** The template built from one row that is not skipped: first the
      template itself, then its fields. */
  function IngestRow(header: seq<string>, row: seq<string>, s: Snapshot): (r: Templates)
    requires RowIngestible(header, row) && row[0] != TitleColumn
    ensures |r.entries| == 1
    ensures r.entries[0].title == row[0] && r.entries[0].canOnlyBeSentOnce == TextFlag(row[2])
  {
    var t := ResolveTemplate(s, row[0], row[1], TextFlag(row[2]), CoverPhoto(row[3], row[4]));
    var fs := RowFields(header, row, |row|, t.after);
    Templates([TemplateEntry(t.id, row[0], t.description, TextFlag(row[2]), fs.entries)], fs.after)
  }

  /** The templates built from the first `n` rows, in row order. */
  function IngestRows(sheet: Sheet, n: nat, s: Snapshot): (r: Templates)
    requires Ingestible(sheet) && n <= |sheet|
  {
    if n == 0 then Templates([], s)
    else
      var prev := IngestRows(sheet, n - 1, s);
      var row := sheet[n - 1];
      if row[0] == TitleColumn then prev
      else
        var t := IngestRow(sheet[0], row, prev.after);
        Templates(prev.entries + t.entries, t.after)
  }

  /** The templates of the whole sheet: one per row that is not skipped, in
      row order, with the row's title and flag and one field per field column. */
  function Ingest(sheet: Sheet, s: Snapshot): (r: Templates)
    requires Ingestible(sheet)
    ensures var rows := DataRows(sheet, |sheet|);
      && |r.entries| == |rows|
      && forall i :: 0 <= i < |rows| ==>
           && r.entries[i].title == rows[i][0]
           && r.entries[i].canOnlyBeSentOnce == TextFlag(rows[i][2])
           && FieldsFollowRow(sheet[0], rows[i], |rows[i]|, r.entries[i].additionalFields)
  {
    IngestRowsOutline(sheet, |sheet|, s);
    IngestRows(sheet, |sheet|, s)
  }

  /** Reads the sheet into templates and fields against the remote catalog. */
  method TemplatesFileIngestion(sheet: Sheet, cat: Catalog) returns (tList: seq<TemplateEntry>)
    requires cat.Valid() && Ingestible(sheet)
    modifies cat
    ensures cat.Valid()
    ensures Templates(tList, cat.State()) == Ingest(sheet, old(cat.State()))
  {
    tList := [];
    var tListPos := 0;
    ghost var s0 := cat.State();
    for r := 0 to |sheet|
      invariant cat.Valid()
      invariant tListPos == |tList|
      invariant Templates(tList, cat.State()) == IngestRows(sheet, r, s0)
    {
      var row := sheet[r];
      assert RowIngestible(sheet[0], row);
      if row[0] != TitleColumn {
        tList := IngestRowInto(sheet[0], row, cat, tList, tListPos);
        tListPos := tListPos + 1;
      }
    }
  }

  /** The body of the ingestion loop for a row that is not skipped: the
      row's template goes at position `tListPos` of `tList`, and then each of
      its fields is appended to that template's `additionalFields`. */
  method IngestRowInto(header: seq<string>, row: seq<string>, cat: Catalog, tList: seq<TemplateEntry>, tListPos: nat)
      returns (tList': seq<TemplateEntry>)
    requires cat.Valid() && RowIngestible(header, row) && row[0] != TitleColumn
    requires tListPos == |tList|
    modifies cat
    ensures cat.Valid()
    ensures var t := IngestRow(header, row, old(cat.State()));
      cat.State() == t.after && tList' == tList + t.entries
  {
    tList' := AppendTemplate(row, cat, tList);
    tList' := AppendRowFields(header, row, cat, tList', tListPos);
  }

  /** `newTemplate(...)` and `tList.append(myTemplate.toDict())`. */
  method AppendTemplate(row: seq<string>, cat: Catalog, tList: seq<TemplateEntry>) returns (tList': seq<TemplateEntry>)
    requires cat.Valid() && |row| >= 5
    modifies cat
    ensures cat.Valid()
    ensures var t := ResolveTemplate(old(cat.State()), row[0], row[1], TextFlag(row[2]), CoverPhoto(row[3], row[4]));
      && cat.State() == t.after
      && tList' == tList + [TemplateEntry(t.id, row[0], t.description, TextFlag(row[2]), [])]
  {
    var myTemplate := new Template(cat, row[0], row[1], row[2], row[3], row[4], []);
    tList' := tList + [myTemplate.ToDict()];
  }

  /** The loop over the cells of one row: each non-blank `field.name` cell
      becomes a field appended to the `additionalFields` of the template at
      `tListPos`. */
  method AppendRowFields(header: seq<string>, row: seq<string>, cat: Catalog, tList: seq<TemplateEntry>, tListPos: nat)
      returns (tList': seq<TemplateEntry>)
    requires cat.Valid() && RowIngestible(header, row) && row[0] != TitleColumn
    requires tListPos < |tList| && tList[tListPos].additionalFields == []
    modifies cat
    ensures cat.Valid()
    ensures var fs := RowFields(header, row, |row|, old(cat.State()));
      && cat.State() == fs.after
      && tList' == tList[tListPos := tList[tListPos].(additionalFields := fs.entries)]
  {
    tList' := tList;
    for cell := 0 to |row|
      invariant cat.Valid()
      invariant var fs := RowFields(header, row, cell, old(cat.State()));
        && cat.State() == fs.after
        && tList' == tList[tListPos := tList[tListPos].(additionalFields := fs.entries)]
    {
      ghost var prev := RowFields(header, row, cell, old(cat.State()));
      if row[cell] != "" && header[cell] == FieldNameColumn {
        ghost var f := FieldFrom(prev.after, row, cell);
        var myField := new Field(cat, row[cell], row[cell + 1], row[cell + 2], row[cell + 3], row[cell + 4], row[cell + 5]);
        assert myField.ToDict() == f.entries[0];
        tList' := tList'[tListPos := tList'[tListPos].(additionalFields := tList'[tListPos].additionalFields + [myField.ToDict()])];
      }
    }
  }

  // ---------------------------------------------------------------------
  // The shape of the result

  /** The columns `k < c` of `row` that start a field, in column order. */
  function FieldColumns(header: seq<string>, row: seq<string>, c: nat): (cols: seq<nat>)
    requires c <= |row|
    ensures forall j :: 0 <= j < |cols| ==> cols[j] < c && IsFieldColumn(header, row, cols[j])
    ensures forall j, j' :: 0 <= j < j' < |cols| ==> cols[j] < cols[j']
    ensures forall k :: 0 <= k < c && IsFieldColumn(header, row, k) ==> k in cols
  {
    if c == 0 then []
    else FieldColumns(header, row, c - 1) + (if IsFieldColumn(header, row, c - 1) then [c - 1] else [])
  }

  /** Field `f` carries the CSV's own cells from column `k` on: the name, the
      two per-template flags and the default value. */
  ghost predicate FromCells(f: FieldEntry, row: seq<string>, k: nat)
    requires k + 5 < |row|
  {
    && f.name == row[k]
    && f.newEnabled == TextFlag(row[k + 3])
    && f.newRequired == TextFlag(row[k + 4])
    && f.newValueForAllMerits == row[k + 5]
  }

  /** The fields of a row follow its field columns one to one, in order. */
  ghost predicate FieldsFollowRow(header: seq<string>, row: seq<string>, c: nat, fs: seq<FieldEntry>)
    requires RowIngestible(header, row) && row[0] != TitleColumn && c <= |row|
  {
    var cols := FieldColumns(header, row, c);
    |fs| == |cols| && forall j :: 0 <= j < |cols| ==> FromCells(fs[j], row, cols[j])
  }

  /** A row's fields follow its field columns one to one, in order. */
  lemma {:induction false} RowFieldsFollowRow(header: seq<string>, row: seq<string>, c: nat, s: Snapshot)
    requires RowIngestible(header, row) && row[0] != TitleColumn && c <= |row|
    ensures FieldsFollowRow(header, row, c, RowFields(header, row, c, s).entries)
  {
    if c > 0 {
      RowFieldsFollowRow(header, row, c - 1, s);
    }
  }

  /** The rows among the first `n` that are not skipped, in order. */
  function DataRows(sheet: Sheet, n: nat): (rows: seq<seq<string>>)
    requires Ingestible(sheet) && n <= |sheet|
    ensures |rows| <= n
    ensures forall i :: 0 <= i < |rows| ==> RowIngestible(sheet[0], rows[i]) && rows[i][0] != TitleColumn
  {
    if n == 0 then []
    else DataRows(sheet, n - 1) + (if sheet[n - 1][0] == TitleColumn then [] else [sheet[n - 1]])
  }

  /** One template per row that is not skipped, in row order, each with the
      row's title and flag and with one field per field column of the row. */
  lemma {:induction false} IngestRowsOutline(sheet: Sheet, n: nat, s: Snapshot)
    requires Ingestible(sheet) && n <= |sheet|
    ensures var ts := IngestRows(sheet, n, s).entries;
      var rows := DataRows(sheet, n);
      && |ts| == |rows|
      && forall i :: 0 <= i < |rows| ==>
           && ts[i].title == rows[i][0]
           && ts[i].canOnlyBeSentOnce == TextFlag(rows[i][2])
           && FieldsFollowRow(sheet[0], rows[i], |rows[i]|, ts[i].additionalFields)
  {
    if n > 0 {
      IngestRowsOutline(sheet, n - 1, s);
      var row := sheet[n - 1];
      if row[0] != TitleColumn {
        var prev := IngestRows(sheet, n - 1, s);
        var t := ResolveTemplate(prev.after, row[0], row[1], TextFlag(row[2]), CoverPhoto(row[3], row[4]));
        RowFieldsFollowRow(sheet[0], row, |row|, t.after);
      }
    }
  }

  // ---------------------------------------------------------------------
  // What ingestion does to the catalog

  /** Every field in `fs` names a catalog field with its id, name, type and description. */
  ghost predicate FieldsKnown(s: Snapshot, fs: seq<FieldEntry>)
  {
    forall j :: 0 <= j < |fs| ==> KnowsField(s, fs[j].id, fs[j].name, fs[j].fieldType, fs[j].description)
  }

  lemma FieldsKnownExtends(s: Snapshot, t: Snapshot, fs: seq<FieldEntry>)
    requires Extends(s, t) && FieldsKnown(s, fs)
    ensures FieldsKnown(t, fs)
  {
  }

  /** A row only appends fields to the catalog. */
  lemma {:induction false} RowFieldsExtends(header: seq<string>, row: seq<string>, c: nat, s: Snapshot)
    requires RowIngestible(header, row) && row[0] != TitleColumn && c <= |row|
    ensures var r := RowFields(header, row, c, s);
      Extends(s, r.after) && r.after.templates == s.templates
  {
    if c > 0 {
      RowFieldsExtends(header, row, c - 1, s);
      var prev := RowFields(header, row, c - 1, s);
      if IsFieldColumn(header, row, c - 1) {
        ResolveFieldFacts(prev.after, row[c - 1], row[c], row[c + 1]);
        ExtendsTransitive(s, prev.after, FieldFrom(prev.after, row, c - 1).after);
      }
    }
  }

  /** Every field of a row names a catalog field with that id, name, type and
      description. */
  lemma {:induction false} RowFieldsResolved(header: seq<string>, row: seq<string>, c: nat, s: Snapshot)
    requires RowIngestible(header, row) && row[0] != TitleColumn && c <= |row|
    ensures var r := RowFields(header, row, c, s);
      FieldsKnown(r.after, r.entries)
  {
    if c > 0 {
      RowFieldsResolved(header, row, c - 1, s);
      var prev := RowFields(header, row, c - 1, s);
      if IsFieldColumn(header, row, c - 1) {
        var k := c - 1;
        ResolveFieldFacts(prev.after, row[k], row[k + 1], row[k + 2]);
        var f := FieldFrom(prev.after, row, k);
        FieldsKnownExtends(prev.after, f.after, prev.entries);
        assert FieldsKnown(f.after, f.entries);
      }
    }
  }

  /** The record of everything one template entry refers to. */
  ghost predicate EntryKnown(s: Snapshot, e: TemplateEntry)
  {
    KnowsTemplate(s, e.id, e.title, e.description) && FieldsKnown(s, e.additionalFields)
  }

  lemma EntryKnownExtends(s: Snapshot, t: Snapshot, e: TemplateEntry)
    requires Extends(s, t) && EntryKnown(s, e)
    ensures EntryKnown(t, e)
  {
  }

  /** One row only appends to the catalog, and the entry it yields is known by it. */
  lemma IngestRowResolved(header: seq<string>, row: seq<string>, s: Snapshot)
    requires RowIngestible(header, row) && row[0] != TitleColumn
    ensures var r := IngestRow(header, row, s);
      Extends(s, r.after) && EntryKnown(r.after, r.entries[0])
  {
    var t := ResolveTemplate(s, row[0], row[1], TextFlag(row[2]), CoverPhoto(row[3], row[4]));
    ResolveTemplateFacts(s, row[0], row[1], TextFlag(row[2]), CoverPhoto(row[3], row[4]));
    RowFieldsExtends(header, row, |row|, t.after);
    RowFieldsResolved(header, row, |row|, t.after);
    var fs := RowFields(header, row, |row|, t.after);
    KeepsTemplate(t.after, fs.after, t.id, row[0], t.description);
    ExtendsTransitive(s, t.after, fs.after);
  }

  /** Ingestion only appends to the catalog, and every id it hands out names
      a catalog record with the entry's title or name (and the description
      and type the entry carries). */
  lemma {:induction false} IngestRowsResolved(sheet: Sheet, n: nat, s: Snapshot)
    requires Ingestible(sheet) && n <= |sheet|
    ensures var r := IngestRows(sheet, n, s);
      && Extends(s, r.after)
      && forall i :: 0 <= i < |r.entries| ==> EntryKnown(r.after, r.entries[i])
  {
    if n > 0 {
      IngestRowsResolved(sheet, n - 1, s);
      var prev := IngestRows(sheet, n - 1, s);
      var row := sheet[n - 1];
      if row[0] != TitleColumn {
        IngestRowResolved(sheet[0], row, prev.after);
        var t := IngestRow(sheet[0], row, prev.after);
        ExtendsTransitive(s, prev.after, t.after);
        var r := IngestRows(sheet, n, s);
        assert r.entries == prev.entries + t.entries && r.after == t.after;
        forall i | 0 <= i < |r.entries|
          ensures EntryKnown(r.after, r.entries[i])
        {
          if i < |prev.entries| {
            EntryKnownExtends(prev.after, t.after, prev.entries[i]);
          } else {
            assert r.entries[i] == t.entries[0];
          }
        }
      }
    }
  }

  // ---------------------------------------------------------------------
  // A second ingestion of the same sheet creates nothing

  /** Every field column among the first `c` cells of `row` names a field of `s`. */
  ghost predicate FieldNamesIn(header: seq<string>, row: seq<string>, c: nat, s: Snapshot)
    requires c <= |row|
  {
    forall k :: 0 <= k < c && IsFieldColumn(header, row, k) ==> HasFieldName(s, row[k])
  }

  /** The catalog already has the row's template title and all its field names. */
  ghost predicate RowCovered(header: seq<string>, row: seq<string>, s: Snapshot)
    requires |row| >= 1
  {
    HasTitle(s, row[0]) && FieldNamesIn(header, row, |row|, s)
  }

  /** The catalog covers every row among the first `n` that is not skipped. */
  ghost predicate SheetCovered(sheet: Sheet, n: nat, s: Snapshot)
    requires Ingestible(sheet) && n <= |sheet|
  {
    forall i :: 0 <= i < n && RowIngestible(sheet[0], sheet[i]) && sheet[i][0] != TitleColumn ==>
      RowCovered(sheet[0], sheet[i], s)
  }

  lemma FieldNamesInExtends(header: seq<string>, row: seq<string>, c: nat, s: Snapshot, t: Snapshot)
    requires c <= |row| && Extends(s, t) && FieldNamesIn(header, row, c, s)
    ensures FieldNamesIn(header, row, c, t)
  {
  }

  lemma RowCoveredExtends(header: seq<string>, row: seq<string>, s: Snapshot, t: Snapshot)
    requires |row| >= 1 && Extends(s, t) && RowCovered(header, row, s)
    ensures RowCovered(header, row, t)
  {
  }

  /** After a row's fields are resolved, the catalog has all their names. */
  lemma {:induction false} RowFieldsCover(header: seq<string>, row: seq<string>, c: nat, s: Snapshot)
    requires RowIngestible(header, row) && row[0] != TitleColumn && c <= |row|
    ensures FieldNamesIn(header, row, c, RowFields(header, row, c, s).after)
  {
    if c > 0 {
      RowFieldsCover(header, row, c - 1, s);
      var prev := RowFields(header, row, c - 1, s);
      if IsFieldColumn(header, row, c - 1) {
        ResolveFieldFacts(prev.after, row[c - 1], row[c], row[c + 1]);
        FieldNamesInExtends(header, row, c - 1, prev.after, FieldFrom(prev.after, row, c - 1).after);
      }
    }
  }

  /** Resolving fields whose names the catalog has creates nothing. */
  lemma {:induction false} RowFieldsUnchanged(header: seq<string>, row: seq<string>, c: nat, s: Snapshot)
    requires RowIngestible(header, row) && row[0] != TitleColumn && c <= |row|
    requires FieldNamesIn(header, row, c, s)
    ensures RowFields(header, row, c, s).after == s
  {
    if c > 0 {
      RowFieldsUnchanged(header, row, c - 1, s);
      if IsFieldColumn(header, row, c - 1) {
        ResolveFieldFacts(s, row[c - 1], row[c], row[c + 1]);
      }
    }
  }

  /** After a row is ingested, the catalog covers it. */
  lemma IngestRowCovers(header: seq<string>, row: seq<string>, s: Snapshot)
    requires RowIngestible(header, row) && row[0] != TitleColumn
    ensures RowCovered(header, row, IngestRow(header, row, s).after)
  {
    var t := ResolveTemplate(s, row[0], row[1], TextFlag(row[2]), CoverPhoto(row[3], row[4]));
    ResolveTemplateFacts(s, row[0], row[1], TextFlag(row[2]), CoverPhoto(row[3], row[4]));
    RowFieldsExtends(header, row, |row|, t.after);
    RowFieldsCover(header, row, |row|, t.after);
    KeepsTitle(t.after, RowFields(header, row, |row|, t.after).after, row[0]);
  }

  /** Ingesting a row the catalog covers creates nothing. */
  lemma IngestRowUnchanged(header: seq<string>, row: seq<string>, s: Snapshot)
    requires RowIngestible(header, row) && row[0] != TitleColumn
    requires RowCovered(header, row, s)
    ensures IngestRow(header, row, s).after == s
  {
    ResolveTemplateFacts(s, row[0], row[1], TextFlag(row[2]), CoverPhoto(row[3], row[4]));
    RowFieldsUnchanged(header, row, |row|, s);
  }

  /** After the first `n` rows are ingested, the catalog covers them all. */
  lemma {:induction false} IngestRowsCover(sheet: Sheet, n: nat, s: Snapshot)
    requires Ingestible(sheet) && n <= |sheet|
    ensures SheetCovered(sheet, n, IngestRows(sheet, n, s).after)
  {
    if n > 0 {
      IngestRowsCover(sheet, n - 1, s);
      var prev := IngestRows(sheet, n - 1, s);
      var row := sheet[n - 1];
      if row[0] != TitleColumn {
        var t := IngestRow(sheet[0], row, prev.after);
        IngestRowResolved(sheet[0], row, prev.after);
        IngestRowCovers(sheet[0], row, prev.after);
        forall i | 0 <= i < n - 1 && RowIngestible(sheet[0], sheet[i]) && sheet[i][0] != TitleColumn
          ensures RowCovered(sheet[0], sheet[i], t.after)
        {
          RowCoveredExtends(sheet[0], sheet[i], prev.after, t.after);
        }
      }
    }
  }

  /** Ingesting rows that the catalog covers creates nothing. */
  lemma {:induction false} IngestRowsUnchanged(sheet: Sheet, n: nat, s: Snapshot)
    requires Ingestible(sheet) && n <= |sheet|
    requires SheetCovered(sheet, n, s)
    ensures IngestRows(sheet, n, s).after == s
  {
    if n > 0 {
      IngestRowsUnchanged(sheet, n - 1, s);
      var row := sheet[n - 1];
      if row[0] != TitleColumn {
        IngestRowUnchanged(sheet[0], row, s);
      }
    }
  }

  /** Running the ingestion a second time on the same sheet finds every
      template and field the first run created, and creates nothing. */
  lemma IngestTwiceCreatesNothing(sheet: Sheet, s: Snapshot)
    requires Ingestible(sheet)
    ensures var once := Ingest(sheet, s).after;
      Ingest(sheet, once).after == once
  {
    IngestRowsCover(sheet, |sheet|, s);
    IngestRowsUnchanged(sheet, |sheet|, Ingest(sheet, s).after);
  }

  // ---------------------------------------------------------------------
  // Ingestion never duplicates a title or a field name

  lemma {:induction false} RowFieldsDistinct(header: seq<string>, row: seq<string>, c: nat, s: Snapshot)
    requires RowIngestible(header, row) && row[0] != TitleColumn && c <= |row|
    requires DistinctFieldNames(s)
    ensures DistinctFieldNames(RowFields(header, row, c, s).after)
  {
    if c > 0 {
      RowFieldsDistinct(header, row, c - 1, s);
      var prev := RowFields(header, row, c - 1, s);
      if IsFieldColumn(header, row, c - 1) {
        ResolveFieldFacts(prev.after, row[c - 1], row[c], row[c + 1]);
      }
    }
  }

  /** A catalog whose titles and field names are each distinct stays so:
      a title or a name already present is reused, never created again. */
  lemma {:induction false} IngestRowsDistinct(sheet: Sheet, n: nat, s: Snapshot)
    requires Ingestible(sheet) && n <= |sheet|
    requires DistinctTitles(s) && DistinctFieldNames(s)
    ensures var r := IngestRows(sheet, n, s).after;
      DistinctTitles(r) && DistinctFieldNames(r)
  {
    if n > 0 {
      IngestRowsDistinct(sheet, n - 1, s);
      var prev := IngestRows(sheet, n - 1, s);
      var row := sheet[n - 1];
      if row[0] != TitleColumn {
        IngestRowDistinct(sheet[0], row, prev.after);
      }
    }
  }

  lemma IngestRowDistinct(header: seq<string>, row: seq<string>, s: Snapshot)
    requires RowIngestible(header, row) && row[0] != TitleColumn
    requires DistinctTitles(s) && DistinctFieldNames(s)
    ensures var r := IngestRow(header, row, s).after;
      DistinctTitles(r) && DistinctFieldNames(r)
  {
    var t := ResolveTemplate(s, row[0], row[1], TextFlag(row[2]), CoverPhoto(row[3], row[4]));
    ResolveTemplateFacts(s, row[0], row[1], TextFlag(row[2]), CoverPhoto(row[3], row[4]));
    RowFieldsExtends(header, row, |row|, t.after);
    RowFieldsDistinct(header, row, |row|, t.after);
  }

  // ---------------------------------------------------------------------
  // Every ingested field has a name

  /** A field exists only where a `field.name` cell is non-blank, so no
      ingested field has a blank name. */
  lemma IngestedFieldsNamed(sheet: Sheet, s: Snapshot)
    requires Ingestible(sheet)
    ensures var ts := Ingest(sheet, s).entries;
      forall i, j :: 0 <= i < |ts| && 0 <= j < |ts[i].additionalFields| ==> ts[i].additionalFields[j].name != ""
  {
    var ts := Ingest(sheet, s).entries;
    var rows := DataRows(sheet, |sheet|);
    IngestRowsOutline(sheet, |sheet|, s);
    forall i, j | 0 <= i < |ts| && 0 <= j < |ts[i].additionalFields|
      ensures ts[i].additionalFields[j].name != ""
    {
      var cols := FieldColumns(sheet[0], rows[i], |rows[i]|);
      assert FromCells(ts[i].additionalFields[j], rows[i], cols[j]);
      assert IsFieldColumn(sheet[0], rows[i], cols[j]);
    }
  }

  // ---------------------------------------------------------------------
  // A sheet the validator accepts may still raise during ingestion

  /** A data row holding only a title passes validation (the blank-cell
      rule only looks at the cells a row has), yet ingesting it reads
      `row[1]` and raises IndexError. */
  lemma ValidatedSheetMayRaise()
    ensures var sheet := [[TitleColumn], ["T"]];
      Validation.Validate(sheet) == Validation.Valid && !Ingestible(sheet)
  {
    var sheet := [[TitleColumn], ["T"]];
    HeaderLayout(0);
    assert Validation.CellStop(sheet, 0, 0) == None;
    assert Validation.CellStop(sheet, 1, 0) == None;
    Validation.ValidateValidIff(sheet);
    assert !RowIngestible(sheet[0], sheet[1]);
  }
}
