/** Field settings: once every template and field exists, each field of each
    template is attached to its template with the per-template flags, and
    with the default value when the CSV gives one. */
module Settings {

  import opened Wrappers
  import opened Schema
  import opened Remote
  import opened Entities
  import opened Ingestion

  /** The attach call for field `f` of the template with id `templateId`. */
  function SettingFor(templateId: Id, f: FieldEntry): (p: FieldSetting)
    ensures p.templateId == templateId && p.fieldId == f.id
    ensures p.newEnabled == f.newEnabled && p.newRequired == f.newRequired
    ensures p.valueForAll.Some? <==> f.newValueForAllMerits != ""
    ensures p.valueForAll.Some? ==> p.valueForAll.value == ValueForAllMerits(f.id, f.newValueForAllMerits)
  {
    FieldSetting(templateId, f.id, f.newEnabled, f.newRequired,
                 if f.newValueForAllMerits != "" then Some(ValueForAllMerits(f.id, f.newValueForAllMerits)) else None)
  }

  /** The attach calls for the first `n` fields of `t`, skipping blank names. */
  function TemplateSettings(t: TemplateEntry, n: nat): (r: seq<FieldSetting>)
    requires n <= |t.additionalFields|
    ensures |r| <= n
    ensures forall p :: p in r ==> p.templateId == t.id
  {
    if n == 0 then []
    else
      var f := t.additionalFields[n - 1];
      TemplateSettings(t, n - 1) + (if f.name != "" then [SettingFor(t.id, f)] else [])
  }

  /** The number of fields of the first `n` templates. */
  function FieldCount(ts: seq<TemplateEntry>, n: nat): (count: nat)
    requires n <= |ts|
  {
    if n == 0 then 0 else FieldCount(ts, n - 1) + |ts[n - 1].additionalFields|
  }

  /** The attach calls for the first `n` templates, template after template. */
  function AttachCalls(ts: seq<TemplateEntry>, n: nat): (r: seq<FieldSetting>)
    requires n <= |ts|
    ensures |r| <= FieldCount(ts, n)
  {
    if n == 0 then []
    else AttachCalls(ts, n - 1) + TemplateSettings(ts[n - 1], |ts[n - 1].additionalFields|)
  }

  /** The first loop: one unit per template and one per field with a name,
      the total the progress meter counts up to. */
  method ProgressTotal(templates: seq<TemplateEntry>) returns (totalLength: nat)
    ensures totalLength == |templates| + |AttachCalls(templates, |templates|)|
  {
    totalLength := 0;
    for i := 0 to |templates|
      invariant totalLength == i + |AttachCalls(templates, i)|
    {
      var temp := templates[i];
      totalLength := totalLength + 1;
      for j := 0 to |temp.additionalFields|
        invariant totalLength == i + 1 + |AttachCalls(templates, i)| + |TemplateSettings(temp, j)|
      {
        if temp.additionalFields[j].name != "" {
          totalLength := totalLength + 1;
        }
      }
    }
  }

  /** Posts one attach call per named field of every template, in order. */
  method CreateFieldSettings(templates: seq<TemplateEntry>, cat: Catalog)
    requires cat.Valid()
    modifies cat
    ensures cat.Valid()
    ensures cat.State() == old(cat.State()).(settings := old(cat.settings) + AttachCalls(templates, |templates|))
  {
    var totalLength := ProgressTotal(templates);
    AttachTemplates(templates, cat);
  }

  /** The second loop: the attach calls of each template in turn. */
  method AttachTemplates(templates: seq<TemplateEntry>, cat: Catalog)
    requires cat.Valid()
    modifies cat
    ensures cat.Valid()
    ensures cat.State() == old(cat.State()).(settings := old(cat.settings) + AttachCalls(templates, |templates|))
  {
    for i := 0 to |templates|
      invariant cat.Valid()
      invariant cat.State() == old(cat.State()).(settings := old(cat.settings) + AttachCalls(templates, i))
    {
      AttachTemplateFields(templates[i], cat);
    }
  }

  /** The inner loop: one attach call per named field of `template`, in field order. */
  method AttachTemplateFields(template: TemplateEntry, cat: Catalog)
    requires cat.Valid()
    modifies cat
    ensures cat.Valid()
    ensures cat.State() == old(cat.State()).(settings := old(cat.settings) + TemplateSettings(template, |template.additionalFields|))
  {
    for j := 0 to |template.additionalFields|
      invariant cat.Valid()
      invariant cat.State() == old(cat.State()).(settings := old(cat.settings) + TemplateSettings(template, j))
    {
      var field := template.additionalFields[j];
      if field.name != "" {
        var valueForAll: Option<ValueForAllMerits> := None;
        if field.newValueForAllMerits != "" {
          valueForAll := Some(ValueForAllMerits(field.id, field.newValueForAllMerits));
        }
        cat.PostFieldSetting(FieldSetting(template.id, field.id, field.newEnabled, field.newRequired, valueForAll));
      }
    }
  }

  // ---------------------------------------------------------------------
  // Which calls are made

  /** `p` is the attach call of a named field of `t`. */
  ghost predicate FromTemplate(t: TemplateEntry, p: FieldSetting)
  {
    exists j :: 0 <= j < |t.additionalFields| && t.additionalFields[j].name != "" && p == SettingFor(t.id, t.additionalFields[j])
  }

  /** Every call for `t` belongs to a named field of `t`, and every named
      field of `t` gets one. */
  lemma {:induction false} TemplateSettingsFacts(t: TemplateEntry, n: nat)
    requires n <= |t.additionalFields|
    ensures forall p :: p in TemplateSettings(t, n) ==> FromTemplate(t, p)
    ensures forall j :: 0 <= j < n && t.additionalFields[j].name != "" ==>
      SettingFor(t.id, t.additionalFields[j]) in TemplateSettings(t, n)
  {
    if n > 0 {
      TemplateSettingsFacts(t, n - 1);
      var f := t.additionalFields[n - 1];
      var prev := TemplateSettings(t, n - 1);
      var last := if f.name != "" then [SettingFor(t.id, f)] else [];
      assert TemplateSettings(t, n) == prev + last;
      forall p | p in TemplateSettings(t, n)
        ensures FromTemplate(t, p)
      {
        if p !in prev {
          assert p == SettingFor(t.id, t.additionalFields[n - 1]);
        }
      }
    }
  }

  /** When every field of `t` is named, its calls are exactly its fields, in order. */
  lemma {:induction false} TemplateSettingsInOrder(t: TemplateEntry, n: nat)
    requires n <= |t.additionalFields|
    requires forall j :: 0 <= j < n ==> t.additionalFields[j].name != ""
    ensures |TemplateSettings(t, n)| == n
    ensures forall j :: 0 <= j < n ==> TemplateSettings(t, n)[j] == SettingFor(t.id, t.additionalFields[j])
  {
    if n > 0 {
      TemplateSettingsInOrder(t, n - 1);
    }
  }

  /** The calls for a list of templates: each belongs to a named field of one
      of the templates, and every named field of every template gets one. */
  lemma {:induction false} AttachCallsFacts(ts: seq<TemplateEntry>, n: nat)
    requires n <= |ts|
    ensures forall p :: p in AttachCalls(ts, n) ==> exists i :: 0 <= i < n && FromTemplate(ts[i], p)
    ensures forall i, j :: 0 <= i < n && 0 <= j < |ts[i].additionalFields| && ts[i].additionalFields[j].name != "" ==>
      SettingFor(ts[i].id, ts[i].additionalFields[j]) in AttachCalls(ts, n)
  {
    if n > 0 {
      AttachCallsFacts(ts, n - 1);
      var t := ts[n - 1];
      TemplateSettingsFacts(t, |t.additionalFields|);
      var prev := AttachCalls(ts, n - 1);
      var last := TemplateSettings(t, |t.additionalFields|);
      assert AttachCalls(ts, n) == prev + last;
      forall p | p in AttachCalls(ts, n)
        ensures exists i :: 0 <= i < n && FromTemplate(ts[i], p)
      {
        if p !in prev {
          assert FromTemplate(ts[n - 1], p);
        }
      }
    }
  }

  /** Templates are handled in list order: the calls for the first `n`
      templates come before any call for a later one. */
  lemma {:induction false} AttachCallsOrder(ts: seq<TemplateEntry>, n: nat, m: nat)
    requires n <= m <= |ts|
    ensures AttachCalls(ts, n) <= AttachCalls(ts, m)
    decreases m - n
  {
    if n < m {
      AttachCallsOrder(ts, n, m - 1);
    }
  }

  /** After ingestion, every field of every template gets exactly one attach
      call, in the template's field order. */
  lemma IngestedTemplatesAttachEveryField(sheet: Sheet, s: Snapshot)
    requires Ingestible(sheet)
    ensures var ts := Ingest(sheet, s).entries;
      forall i :: 0 <= i < |ts| ==>
        var fs := ts[i].additionalFields;
        && |TemplateSettings(ts[i], |fs|)| == |fs|
        && forall j :: 0 <= j < |fs| ==> TemplateSettings(ts[i], |fs|)[j] == SettingFor(ts[i].id, fs[j])
  {
    var ts := Ingest(sheet, s).entries;
    IngestedFieldsNamed(sheet, s);
    forall i | 0 <= i < |ts|
      ensures var fs := ts[i].additionalFields;
        && |TemplateSettings(ts[i], |fs|)| == |fs|
        && forall j :: 0 <= j < |fs| ==> TemplateSettings(ts[i], |fs|)[j] == SettingFor(ts[i].id, fs[j])
    {
      TemplateSettingsInOrder(ts[i], |ts[i].additionalFields|);
    }
  }
}
