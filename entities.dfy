/** The two entity classes: a template and a field. Constructing either one
    looks it up in the remote catalog by exact name, adopts the first match,
    and creates it remotely when there is none. */
module Entities {

  import opened Wrappers
  import opened Schema
  import opened Remote

  /** A field as `newField.toDict` renders it. */
  datatype FieldEntry = FieldEntry(
    id: Id,
    name: string,
    fieldType: string,
    description: string,
    newEnabled: bool,
    newRequired: bool,
    newValueForAllMerits: string)

  /** A template as `newTemplate.toDict` renders it (the cover photo is not part of it). */
  datatype TemplateEntry = TemplateEntry(
    id: Id,
    title: string,
    description: string,
    canOnlyBeSentOnce: bool,
    additionalFields: seq<FieldEntry>)

  datatype TemplateResolution = TemplateResolution(id: Id, description: string, after: Snapshot)

  datatype FieldResolution = FieldResolution(id: Id, fieldType: string, description: string, after: Snapshot)

  /** Resolving a template by its title against the catalog: the first
      template with an equal title lends its id and description and nothing
      changes; otherwise the template is created with the given data. */
  function ResolveTemplate(s: Snapshot, title: string, description: string, canOnlyBeSentOnce: bool, cover: CoverPhoto): (r: TemplateResolution)
    ensures Issued(s) ==> Issued(r.after)
    ensures forall k ::
      (0 <= k < |s.templates| && s.templates[k].title == title &&
       forall j :: 0 <= j < k ==> s.templates[j].title != title) ==>
        r == TemplateResolution(s.templates[k].id, s.templates[k].description, s)
    ensures (forall k :: 0 <= k < |s.templates| ==> s.templates[k].title != title) ==>
      && r.description == description
      && (Issued(s) ==> Unused(s, r.id))
      && r.after.templates == s.templates + [TemplateRecord(r.id, title, description, canOnlyBeSentOnce, cover)]
      && r.after.fields == s.fields && r.after.settings == s.settings
  {
    match FirstTitle(s.templates, title)
    case Some(k) => TemplateResolution(s.templates[k].id, s.templates[k].description, s)
    case None => TemplateResolution(s.nextId, description, WithTemplate(s, title, description, canOnlyBeSentOnce, cover))
  }

  /** Resolving a field by its name against the catalog: the first field with
      an equal name lends its id, type and description and nothing changes;
      otherwise the field is created with the given data. */
  function ResolveField(s: Snapshot, name: string, fieldType: string, description: string): (r: FieldResolution)
    ensures Issued(s) ==> Issued(r.after)
    ensures forall k ::
      (0 <= k < |s.fields| && s.fields[k].fieldName == name &&
       forall j :: 0 <= j < k ==> s.fields[j].fieldName != name) ==>
        r == FieldResolution(s.fields[k].id, s.fields[k].fieldType, s.fields[k].description, s)
    ensures (forall k :: 0 <= k < |s.fields| ==> s.fields[k].fieldName != name) ==>
      && r.fieldType == fieldType && r.description == description
      && (Issued(s) ==> Unused(s, r.id))
      && r.after.fields == s.fields + [FieldRecord(r.id, name, fieldType, description)]
      && r.after.templates == s.templates && r.after.settings == s.settings
  {
    match FirstFieldName(s.fields, name)
    case Some(k) => FieldResolution(s.fields[k].id, s.fields[k].fieldType, s.fields[k].description, s)
    case None => FieldResolution(s.nextId, fieldType, description, WithField(s, name, fieldType, description))
  }

  // ---------------------------------------------------------------------
  // What resolution does to the catalog

  /** `t` is `s` with records appended and the attach log untouched. */
  ghost predicate Extends(s: Snapshot, t: Snapshot)
  {
    s.templates <= t.templates && s.fields <= t.fields && t.settings == s.settings
  }

  ghost predicate HasTitle(s: Snapshot, title: string)
  {
    exists t :: t in s.templates && t.title == title
  }

  ghost predicate HasFieldName(s: Snapshot, name: string)
  {
    exists f :: f in s.fields && f.fieldName == name
  }

  /** Some catalog template has this id, title and description. */
  ghost predicate KnowsTemplate(s: Snapshot, id: Id, title: string, description: string)
  {
    exists t :: t in s.templates && t.id == id && t.title == title && t.description == description
  }

  /** The catalog holds a field with this id, name, type and description. */
  ghost predicate KnowsField(s: Snapshot, id: Id, name: string, fieldType: string, description: string)
  {
    FieldRecord(id, name, fieldType, description) in s.fields
  }

  ghost predicate DistinctTitles(s: Snapshot)
  {
    forall i, j :: 0 <= i < j < |s.templates| ==> s.templates[i].title != s.templates[j].title
  }

  ghost predicate DistinctFieldNames(s: Snapshot)
  {
    forall i, j :: 0 <= i < j < |s.fields| ==> s.fields[i].fieldName != s.fields[j].fieldName
  }

  /** Appending twice is appending. */
  lemma ExtendsTransitive(s: Snapshot, t: Snapshot, u: Snapshot)
    requires Extends(s, t) && Extends(t, u)
    ensures Extends(s, u)
  {
  }

  /** What an extended catalog held before, it still holds. */
  lemma KeepsTitle(s: Snapshot, t: Snapshot, title: string)
    requires Extends(s, t) && HasTitle(s, title)
    ensures HasTitle(t, title)
  {
  }

  lemma KeepsFieldName(s: Snapshot, t: Snapshot, name: string)
    requires Extends(s, t) && HasFieldName(s, name)
    ensures HasFieldName(t, name)
  {
  }

  lemma KeepsTemplate(s: Snapshot, t: Snapshot, id: Id, title: string, description: string)
    requires Extends(s, t) && KnowsTemplate(s, id, title, description)
    ensures KnowsTemplate(t, id, title, description)
  {
  }

  lemma KeepsField(s: Snapshot, t: Snapshot, id: Id, name: string, fieldType: string, description: string)
    requires Extends(s, t) && KnowsField(s, id, name, fieldType, description)
    ensures KnowsField(t, id, name, fieldType, description)
  {
  }

  /** Resolving a template only ever appends, leaves it findable by its
      title with the id and description it adopted, creates nothing when the
      title is already present, and never introduces a second template with
      the same title. */
  lemma ResolveTemplateFacts(s: Snapshot, title: string, description: string, canOnlyBeSentOnce: bool, cover: CoverPhoto)
    ensures var r := ResolveTemplate(s, title, description, canOnlyBeSentOnce, cover);
      && Extends(s, r.after) && r.after.fields == s.fields
      && KnowsTemplate(r.after, r.id, title, r.description) && HasTitle(r.after, title)
      && (HasTitle(s, title) ==> r.after == s)
      && (DistinctTitles(s) ==> DistinctTitles(r.after))
  {
  }

  /** The same for fields, with the field's id, type and description. */
  lemma ResolveFieldFacts(s: Snapshot, name: string, fieldType: string, description: string)
    ensures var r := ResolveField(s, name, fieldType, description);
      && Extends(s, r.after) && r.after.templates == s.templates
      && KnowsField(r.after, r.id, name, r.fieldType, r.description) && HasFieldName(r.after, name)
      && (HasFieldName(s, name) ==> r.after == s)
      && (DistinctFieldNames(s) ==> DistinctFieldNames(r.after))
  {
  }

  /** One template built from one CSV row. */
  class Template {
    var templateId: Id
    var title: string
    var description: string
    var canOnlyBeSentOnce: bool
    var coverPhotoId: string
    var coverPhotoFileName: string
    var additionalFields: seq<FieldEntry>

    /** The template's flag comes from its `TRUE`/`FALSE` cell; its id (and,
        on reuse, its description) from the catalog. */
    constructor (cat: Catalog, title: string, description: string, canOnlyBeSentOnce: string,
                 coverPhotoId: string, coverPhotoFileName: string, additionalFields: seq<FieldEntry>)
      requires cat.Valid()
      modifies cat
      ensures cat.Valid()
      ensures this.title == title && this.canOnlyBeSentOnce == TextFlag(canOnlyBeSentOnce)
      ensures this.coverPhotoId == coverPhotoId && this.coverPhotoFileName == coverPhotoFileName
      ensures this.additionalFields == additionalFields
      ensures var r := ResolveTemplate(old(cat.State()), title, description, TextFlag(canOnlyBeSentOnce),
                                       CoverPhoto(coverPhotoId, coverPhotoFileName));
        templateId == r.id && this.description == r.description && cat.State() == r.after
    {
      this.title := title;
      this.description := description;
      if canOnlyBeSentOnce == "" || Truthy("FALSE") {
        this.canOnlyBeSentOnce := false;
      }
      if canOnlyBeSentOnce == "TRUE" {
        this.canOnlyBeSentOnce := true;
      }
      this.coverPhotoId := coverPhotoId;
      this.coverPhotoFileName := coverPhotoFileName;
      this.additionalFields := additionalFields;
      new;
      MeritTemplateExists(cat);
    }

    /** Creates the template remotely (the cover photo is always sent) and
        records the id the server returns. */
    method CreateTemplate(cat: Catalog)
      requires cat.Valid()
      modifies this`templateId, cat
      ensures cat.Valid()
      ensures templateId == old(cat.nextId)
      ensures cat.State() == WithTemplate(old(cat.State()), title, description, canOnlyBeSentOnce,
                                          CoverPhoto(coverPhotoId, coverPhotoFileName))
    {
      templateId := cat.PostTemplate(title, description, canOnlyBeSentOnce, CoverPhoto(coverPhotoId, coverPhotoFileName));
    }

    /** Looks the title up in a fresh read of the catalog; adopts the first
        match's id and description, or creates the template. */
    method MeritTemplateExists(cat: Catalog)
      requires cat.Valid()
      modifies this`templateId, this`description, cat
      ensures cat.Valid()
      ensures var r := ResolveTemplate(old(cat.State()), title, old(description), canOnlyBeSentOnce,
                                       CoverPhoto(coverPhotoId, coverPhotoFileName));
        templateId == r.id && description == r.description && cat.State() == r.after
    {
      var existingTemplates := cat.GetTemplates();
      for i := 0 to |existingTemplates|
        invariant forall j :: 0 <= j < i ==> existingTemplates[j].title != title
      {
        if title == existingTemplates[i].title {
          templateId := existingTemplates[i].id;
          description := existingTemplates[i].description;
          return;
        }
      }
      CreateTemplate(cat);
    }

    function ToDict(): (e: TemplateEntry)
      reads this
      ensures e.id == templateId && e.title == title && e.description == description
      ensures e.canOnlyBeSentOnce == canOnlyBeSentOnce && e.additionalFields == additionalFields
    {
      TemplateEntry(templateId, title, description, canOnlyBeSentOnce, additionalFields)
    }
  }

  /** One field occurrence built from six consecutive cells of a CSV row. */
  class Field {
    var fieldId: Id
    var name: string
    var fieldType: string
    var description: string
    var newEnabled: bool
    var newRequired: bool
    var newValueForAllMerits: string

    /** The per-template flags and default value always come from the CSV; the
        id (and, on reuse, the type and description) from the catalog. */
    constructor (cat: Catalog, name: string, fieldType: string, description: string,
                 newEnabled: string, newRequired: string, newValueForAllMerits: string)
      requires cat.Valid()
      modifies cat
      ensures cat.Valid()
      ensures this.name == name && this.newValueForAllMerits == newValueForAllMerits
      ensures this.newEnabled == TextFlag(newEnabled) && this.newRequired == TextFlag(newRequired)
      ensures var r := ResolveField(old(cat.State()), name, fieldType, description);
        && fieldId == r.id && this.fieldType == r.fieldType && this.description == r.description
        && cat.State() == r.after
    {
      this.name := name;
      this.fieldType := fieldType;
      this.description := description;
      if newEnabled == "" || Truthy("FALSE") {
        this.newEnabled := false;
      }
      if newEnabled == "TRUE" {
        this.newEnabled := true;
      }
      if newRequired == "" || Truthy("FALSE") {
        this.newRequired := false;
      }
      if newRequired == "TRUE" {
        this.newRequired := true;
      }
      this.newValueForAllMerits := newValueForAllMerits;
      new;
      FieldExists(cat);
    }

    /** Creates the field remotely and records the id the server returns. */
    method CreateField(cat: Catalog)
      requires cat.Valid()
      modifies this`fieldId, cat
      ensures cat.Valid()
      ensures fieldId == old(cat.nextId)
      ensures cat.State() == WithField(old(cat.State()), name, fieldType, description)
    {
      fieldId := cat.PostField(name, fieldType, description);
    }

    /** Looks the name up in a fresh read of the catalog; adopts the first
        match's id, type and description, or creates the field. */
    method FieldExists(cat: Catalog)
      requires cat.Valid()
      modifies this`fieldId, this`fieldType, this`description, cat
      ensures cat.Valid()
      ensures var r := ResolveField(old(cat.State()), name, old(fieldType), old(description));
        && fieldId == r.id && fieldType == r.fieldType && description == r.description
        && cat.State() == r.after
    {
      var fieldList := cat.GetFields();
      for i := 0 to |fieldList|
        invariant forall j :: 0 <= j < i ==> fieldList[j].fieldName != name
      {
        if name == fieldList[i].fieldName {
          fieldId := fieldList[i].id;
          fieldType := fieldList[i].fieldType;
          description := fieldList[i].description;
          return;
        }
      }
      CreateField(cat);
    }

    function ToDict(): (e: FieldEntry)
      reads this
      ensures e.id == fieldId && e.name == name && e.fieldType == fieldType && e.description == description
      ensures e.newEnabled == newEnabled && e.newRequired == newRequired
      ensures e.newValueForAllMerits == newValueForAllMerits
    {
      FieldEntry(fieldId, name, fieldType, description, newEnabled, newRequired, newValueForAllMerits)
    }
  }
}
