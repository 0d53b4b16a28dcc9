/** The fixed CSV layout of the bulk template creator: the header row, the
    accepted field types and the textual boolean flags. */
module Schema {

  import opened Wrappers

  /** A CSV file as the reader delivers it: rows of cells. */
  type Sheet = seq<seq<string>>

  // The five template columns.
  const TitleColumn := "meritTemplate.title"
  const DescriptionColumn := "meritTemplate.description"
  const CanOnlyBeSentOnceColumn := "meritTemplate.canOnlyBeSentOnce"
  const CoverPhotoIdColumn := "meritTemplate.coverPhotoId"
  const CoverPhotoFileNameColumn := "meritTemplate.coverPhotoFileName"

  // The six columns of one repeated field group.
  const FieldNameColumn := "field.name"
  const FieldTypeColumn := "field.fieldType"
  const FieldDescriptionColumn := "field.description"
  const NewEnabledColumn := "field.newEnabled"
  const NewRequiredColumn := "field.newRequired"
  const NewValueForAllMeritsColumn := "field.newValueForAllMerits"

  const TemplateColumns: seq<string> :=
    [TitleColumn, DescriptionColumn, CanOnlyBeSentOnceColumn, CoverPhotoIdColumn, CoverPhotoFileNameColumn]

  const FieldGroup: seq<string> :=
    [FieldNameColumn, FieldTypeColumn, FieldDescriptionColumn,
     NewEnabledColumn, NewRequiredColumn, NewValueForAllMeritsColumn]

  /** The maximum number of field groups on one row. */
  const MaxFields := 35

  /** `n` copies of the field group, one after the other. */
  function FieldGroups(n: nat): (r: seq<string>)
  {
    if n == 0 then [] else FieldGroup + FieldGroups(n - 1)
  }

  /** The header row every CSV must start with, compared position by position. */
  const Header: seq<string> := TemplateColumns + FieldGroups(MaxFields)

  /** Within `n` field groups, position `i` holds column `i % 6` of a group. */
  lemma {:induction false} FieldGroupsAt(n: nat, i: nat)
    requires i < 6 * n
    ensures |FieldGroups(n)| == 6 * n
    ensures FieldGroups(n)[i] == FieldGroup[i % 6]
  {
    if i < 6 {
      FieldGroupsLength(n);
    } else {
      FieldGroupsAt(n - 1, i - 6);
    }
  }

  lemma {:induction false} FieldGroupsLength(n: nat)
    ensures |FieldGroups(n)| == 6 * n
  {
    if n > 0 {
      FieldGroupsLength(n - 1);
    }
  }

  /** The header has 215 columns: five template columns, then 35 field groups of six. */
  lemma HeaderLayout(c: nat)
    requires c < |Header|
    ensures |Header| == 215
    ensures c < 5 ==> Header[c] == TemplateColumns[c]
    ensures c >= 5 ==> Header[c] == FieldGroup[(c - 5) % 6]
  {
    FieldGroupsLength(MaxFields);
    if c >= 5 {
      FieldGroupsAt(MaxFields, c - 5);
    }
  }

  /** The field types a `field.fieldType` cell may name. */
  const FieldTypes: seq<string> :=
    ["ShortText", "LongText", "Date", "Checkbox", "Documents", "Photos", "Videos", "Name"]

  /** Python truthiness of a string: only the empty string is false. */
  function Truthy(s: string): (b: bool)
  {
    |s| > 0
  }

  /** The constructors' conversion of a `TRUE`/`FALSE` cell into a boolean.
      The first test reads `flag == '' or 'FALSE'`, whose right operand is a
      non-empty string and so always truthy: the attribute is first set to
      false for every input, and the second test sets it to true for `TRUE`. */
  function TextFlag(s: string): (b: bool)
    ensures b <==> s == "TRUE"
  {
    var first: Option<bool> := if s == "" || Truthy("FALSE") then Some(false) else None;
    if s == "TRUE" then true else first.value
  }
}
