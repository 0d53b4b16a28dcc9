/** The organization's remote catalog of templates and fields, as the bulk
    creator sees it: reads that list what exists, and posts that append. */
module Remote {

  import opened Wrappers

  /** The identifiers the server assigns to what it creates. The tool never
      inspects them; they are issued here in order from a counter. */
  type Id = nat

  datatype CoverPhoto = CoverPhoto(id: string, fileName: string)

  /** A template as the server stores it: the payload it was created with and its id. */
  datatype TemplateRecord = TemplateRecord(
    id: Id,
    title: string,
    description: string,
    canOnlyBeSentOnce: bool,
    coverPhoto: CoverPhoto)

  /** An organization field as the server stores it. */
  datatype FieldRecord = FieldRecord(id: Id, fieldName: string, fieldType: string, description: string)

  /** The optional part of a field-setting payload. */
  datatype ValueForAllMerits = ValueForAllMerits(fieldId: Id, value: string)

  /** One attach call: `merittemplates/{templateId}/fields/{fieldId}` with its payload. */
  datatype FieldSetting = FieldSetting(
    templateId: Id,
    fieldId: Id,
    newEnabled: bool,
    newRequired: bool,
    valueForAll: Option<ValueForAllMerits>)

  /** The whole remote state as a value. */
  datatype Snapshot = Snapshot(
    templates: seq<TemplateRecord>,
    fields: seq<FieldRecord>,
    settings: seq<FieldSetting>,
    nextId: Id)

  /** Every id in use was issued before `nextId`. */
  ghost predicate Issued(s: Snapshot)
  {
    && (forall k :: 0 <= k < |s.templates| ==> s.templates[k].id < s.nextId)
    && (forall k :: 0 <= k < |s.fields| ==> s.fields[k].id < s.nextId)
  }

  /** `id` names no template and no field of `s`. */
  ghost predicate Unused(s: Snapshot, id: Id)
  {
    && (forall k :: 0 <= k < |s.templates| ==> s.templates[k].id != id)
    && (forall k :: 0 <= k < |s.fields| ==> s.fields[k].id != id)
  }

  /** The state after the server creates a template (and gives it `s.nextId`). */
  function WithTemplate(s: Snapshot, title: string, description: string, canOnlyBeSentOnce: bool, cover: CoverPhoto): (t: Snapshot)
    ensures Issued(s) ==> Issued(t) && Unused(s, s.nextId)
    ensures t.templates == s.templates + [TemplateRecord(s.nextId, title, description, canOnlyBeSentOnce, cover)]
    ensures t.fields == s.fields && t.settings == s.settings
  {
    Snapshot(s.templates + [TemplateRecord(s.nextId, title, description, canOnlyBeSentOnce, cover)],
             s.fields, s.settings, s.nextId + 1)
  }

  /** The state after the server creates a field (and gives it `s.nextId`). */
  function WithField(s: Snapshot, name: string, fieldType: string, description: string): (t: Snapshot)
    ensures Issued(s) ==> Issued(t) && Unused(s, s.nextId)
    ensures t.fields == s.fields + [FieldRecord(s.nextId, name, fieldType, description)]
    ensures t.templates == s.templates && t.settings == s.settings
  {
    Snapshot(s.templates, s.fields + [FieldRecord(s.nextId, name, fieldType, description)],
             s.settings, s.nextId + 1)
  }

  /** The position of the first template titled `title`, if any. */
  function FirstTitle(ts: seq<TemplateRecord>, title: string): (k: Option<nat>)
    ensures k.None? <==> forall j :: 0 <= j < |ts| ==> ts[j].title != title
    ensures k.Some? ==> k.value < |ts| && ts[k.value].title == title
    ensures k.Some? ==> forall j :: 0 <= j < k.value ==> ts[j].title != title
  {
    if ts == [] then None
    else if ts[0].title == title then Some(0)
    else
      match FirstTitle(ts[1..], title)
      case None => None
      case Some(j) => Some(j + 1)
  }

  /** The position of the first field named `name`, if any. */
  function FirstFieldName(fs: seq<FieldRecord>, name: string): (k: Option<nat>)
    ensures k.None? <==> forall j :: 0 <= j < |fs| ==> fs[j].fieldName != name
    ensures k.Some? ==> k.value < |fs| && fs[k.value].fieldName == name
    ensures k.Some? ==> forall j :: 0 <= j < k.value ==> fs[j].fieldName != name
  {
    if fs == [] then None
    else if fs[0].fieldName == name then Some(0)
    else
      match FirstFieldName(fs[1..], name)
      case None => None
      case Some(j) => Some(j + 1)
  }

  /** The remote service. Reads return the current lists; every create call
      appends one record with a fresh id; every attach call is logged. */
  class Catalog {
    var templates: seq<TemplateRecord>
    var fields: seq<FieldRecord>
    var settings: seq<FieldSetting>
    var nextId: Id

    function State(): (s: Snapshot)
      reads this
    {
      Snapshot(templates, fields, settings, nextId)
    }

    ghost predicate Valid()
      reads this
    {
      Issued(State())
    }

    constructor (initial: Snapshot)
      requires Issued(initial)
      ensures Valid() && State() == initial
    {
      templates, fields, settings, nextId := initial.templates, initial.fields, initial.settings, initial.nextId;
    }

    /** `GET orgs/{orgId}/merittemplates`. */
    function GetTemplates(): (r: seq<TemplateRecord>)
      reads this
      ensures r == State().templates
    {
      templates
    }

    /** `GET orgs/{orgId}/fields`. */
    function GetFields(): (r: seq<FieldRecord>)
      reads this
      ensures r == State().fields
    {
      fields
    }

    /** `POST merittemplates`; the reply carries the new template's id. */
    method PostTemplate(title: string, description: string, canOnlyBeSentOnce: bool, cover: CoverPhoto) returns (id: Id)
      requires Valid()
      modifies this
      ensures Valid()
      ensures id == old(nextId) && Unused(old(State()), id)
      ensures State() == WithTemplate(old(State()), title, description, canOnlyBeSentOnce, cover)
    {
      id := nextId;
      templates := templates + [TemplateRecord(id, title, description, canOnlyBeSentOnce, cover)];
      nextId := nextId + 1;
    }

    /** `POST fields`; the reply carries the new field's id. */
    method PostField(name: string, fieldType: string, description: string) returns (id: Id)
      requires Valid()
      modifies this
      ensures Valid()
      ensures id == old(nextId) && Unused(old(State()), id)
      ensures State() == WithField(old(State()), name, fieldType, description)
    {
      id := nextId;
      fields := fields + [FieldRecord(id, name, fieldType, description)];
      nextId := nextId + 1;
    }

    /** `POST merittemplates/{templateId}/fields/{fieldId}`. */
    method PostFieldSetting(setting: FieldSetting)
      requires Valid()
      modifies this
      ensures Valid()
      ensures State() == old(State()).(settings := old(settings) + [setting])
    {
      settings := settings + [setting];
    }
  }
}
