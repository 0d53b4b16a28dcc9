# Bulk template creator — a Dafny model

`templates_creator.py` bulk-creates credential templates and their fields on a
remote credentialing platform, driven by a CSV file. It works in three steps:

1. **Validation.** `templatesFileValidation` checks the CSV against a fixed
   215-column header: five template columns, then 35 groups of six field
   columns. It also applies per-column value rules. It stops at the first cell
   that fails.
2. **Ingestion.** `templatesFileIngestion` turns every row whose first cell is
   not `meritTemplate.title` (which skips the header) into a `newTemplate` and every non-blank `field.name` cell into a
   `newField`. Constructing either object resolves it against the remote
   catalog by exact title or name. The first match lends its id (and its
   description, and for a field its type). When nothing matches, the object is
   created remotely.
3. **Attaching.** `createFieldSettings` attaches each named field to its
   template with the per-template flags `newEnabled` and `newRequired`. It adds
   the default value when the CSV gives one.

The model has seven modules.

- `Wrappers` holds `Option`.
- `Schema` holds the header, the field types and the textual boolean flags.
- `Validation` holds the validator. It is a pure row-major walk `Scan`/`Validate`,
  plus the nested-loop method `TemplatesFileValidation`, which is proved equal
  to the walk.
- `Remote` models the remote catalog.
  - `Snapshot` holds the catalog as a value.
  - The class `Catalog` has the three POST endpoints as methods.
- `Entities` holds the template and field classes.
  - Their constructors run the lookup loops `MeritTemplateExists` and
    `FieldExists`.
  - Those loops are proved against the pure resolutions `ResolveTemplate` and
    `ResolveField`.
- `Ingestion` holds the ingestion loop. It is proved against the pure fold
  `Ingest`.
- `Settings` holds the attach loop. It is proved against the pure fold
  `AttachCalls`.

Each method is proved equal to its pure function. The lemmas then state these
properties of those functions:

- The validator accepts exactly the well-formed sheets, and it reports the
  first offending cell.
- Ingestion yields one template per data row, with one field per non-blank
  `field.name` cell, in column order.
- Every id that ingestion hands out names a catalog record.
- Ingestion only appends to the catalog.
- A second run on the same sheet creates nothing.
- Distinct titles and distinct field names stay distinct.
- Attaching makes exactly one call per named field, in template order.

Some details of the code's behaviour that the model keeps:

- **Template lookups see templates created earlier in the same run.** The
  code fetches the template list again for every row (line 53), so a title
  created by one row is found by every later row, and a repeated title
  creates no duplicate template. `Ingestion.IngestRowsDistinct` and
  `Ingestion.IngestTwiceCreatesNothing` hold for templates too.
- **The template is resolved before its fields.** The code resolves each
  row's template first (line 285) and its fields after it (lines 288–292).
- **The cover photo is always sent.** The template payload always carries a
  `coverPhoto` object (lines 40–43), even when its id is blank.
- **Cover-photo cells must not be blank.** The validator exempts only the
  `field.newValueForAllMerits` columns from the blank-cell check
  (line 218). A blank `coverPhotoId` or `coverPhotoFileName` is therefore
  rejected as a blank cell.
- **Flags are read as `TRUE` or not.** A flag is true exactly when its cell
  is `TRUE`. This is because `flag == '' or 'FALSE'` is always truthy
  (lines 21–24 and 79–86). See `Schema.TextFlag`.

## Model

| member | source | states |
|---|---|---|
| Schema.HeaderLayout | templates_creator.py:208 | the header has 215 columns: the five template columns, then the six field columns repeated 35 times |
| Schema.TextFlag | templates_creator.py:21-24 | a flag cell converts to true exactly when it is `TRUE`; any other text, including blank, gives false |
| Validation.ColumnRule | templates_creator.py:218-262 | the rule chain for a data cell passes exactly when the cell meets every rule of its column (non-blank except under `newValueForAllMerits`, the length limits 60/160/24/160/35/160, TRUE/FALSE flags, one of the eight field types); a blank cell outside `newValueForAllMerits` is reported as blank before any other rule; no data cell is reported as a header mismatch |
| Validation.CellStop | templates_creator.py:212-262 | a header cell passes exactly when it is within the 215 columns and equal to the expected name; a data cell passes exactly when it has a header cell above it and meets that column's rules; `IndexError` arises exactly past the end of the header (the expected header for row 1, the sheet's header row after it); a header mismatch is reported exactly in row 1 |
| Validation.Scan | templates_creator.py:212-262 | a rejection from a position names, 1-based, a cell that exists at or after that position in row-major order; a reason given in row 1 is always a header mismatch and one given later never is |
| Validation.Validate | templates_creator.py:212-264 | a rejection names, 1-based, a cell that exists in the sheet; a reason given in row 1 is always a header mismatch and one given later never is |
| Validation.TemplatesFileValidation | templates_creator.py:204-264 | the nested loop over rows and cells returns exactly the verdict of the row-major walk `Validate`, including the `IndexError` cases as `Raises` |
| Validation.ScanValidIff | templates_creator.py:212-264 | the walk from any position accepts exactly when no cell from that position on stops it |
| Validation.ScanReportsFirstStop | templates_creator.py:212-262 | when the walk from a position rejects, there is a stopping cell at or after it, every cell between passes, and the verdict names that cell |
| Validation.ScanStopsAt | templates_creator.py:212-262 | conversely, the first stopping cell after a position decides the walk's verdict |
| Validation.ValidateValidIff | templates_creator.py:212-264 | the sheet is accepted exactly when no cell of any row fails its rule or indexes past the header |
| Validation.ValidateReportsFirstStop | templates_creator.py:212-262 | a rejection names, 1-based, a failing cell before which every cell passes, with that cell's reason |
| Validation.ValidateStopsAt | templates_creator.py:212-262 | the first failing cell in row-major order decides the verdict |
| Validation.ValidIffWellFormed | templates_creator.py:212-264 | accepted exactly when the header row is a prefix of the expected header, no data row is longer than the header row, and every data cell is acceptable for its column |
| Validation.HeaderMismatchReported | templates_creator.py:214-217 | a rejection in row 1 is a header mismatch at the reported column, and the header row agrees with the expected header before it |
| Validation.HeaderAccepted | templates_creator.py:214-217 | a header row no longer than 215 cells that is not rejected is a prefix of the expected header |
| Validation.HeaderNeverRaises | templates_creator.py:214-215 | a header row no longer than 215 cells never raises `IndexError` |
| Validation.HeaderRejectedIff | templates_creator.py:214-217 | a header row no longer than 215 cells is rejected exactly when one of its cells differs from the expected column name |
| Validation.HeaderTooLongRaises | templates_creator.py:215 | a header row that matches all 215 columns and goes on raises `IndexError` at its 216th cell |
| Validation.BlankCellRejected | templates_creator.py:218-221 | a blank data cell outside the `newValueForAllMerits` columns, after only passing cells, is rejected as blank at its own row and column |
| Validation.CoverPhotoIdWrongLength | templates_creator.py:235-238 | a non-blank `coverPhotoId` whose length is not 24, after only passing cells, is rejected at that cell |
| Remote.WithTemplate | templates_creator.py:30-49 | creating a template appends exactly one record with a fresh id and the posted title, description, flag and cover photo, and changes nothing else |
| Remote.WithField | templates_creator.py:90-105 | creating a field appends exactly one record with a fresh id and the posted name, type and description, and changes nothing else |
| Remote.FirstTitle | templates_creator.py:54-58 | finds the first template with an equal title, or reports that none has it |
| Remote.FirstFieldName | templates_creator.py:112-117 | finds the first field with an equal name, or reports that none has it |
| Remote.Catalog.GetTemplates | templates_creator.py:161-164 | the fetch returns the catalog's current template list, with every template created so far this run |
| Remote.Catalog.GetFields | templates_creator.py:166-169 | the fetch returns the catalog's current field list, with every field created so far this run |
| Remote.Catalog.PostTemplate | templates_creator.py:48-49 | the create call returns the new template's fresh id and appends it to the catalog |
| Remote.Catalog.PostField | templates_creator.py:104-105 | the create call returns the new field's fresh id and appends it to the catalog |
| Remote.Catalog.PostFieldSetting | templates_creator.py:324 | the attach call is logged and the catalog's templates and fields are untouched |
| Entities.ResolveTemplate | templates_creator.py:51-59 | on the first title match, the template adopts that record's id and description and the catalog is unchanged; with no match, it is created with the row's own data and a fresh id |
| Entities.ResolveField | templates_creator.py:107-118 | on the first name match, the field adopts that record's id, type and description and the catalog is unchanged; with no match, it is created with a fresh id |
| Entities.ResolveTemplateFacts | templates_creator.py:51-59 | resolution only appends, leaves a record with the adopted id, title and description, creates nothing when the title is present, and keeps titles distinct |
| Entities.ResolveFieldFacts | templates_creator.py:107-118 | the same for fields, by name, with the adopted id, type and description |
| Entities.Template.constructor | templates_creator.py:17-28 | stores the row's title, cover photo and field list, converts the flag, and leaves the id, the description and the catalog as `ResolveTemplate` gives them |
| Entities.Template.CreateTemplate | templates_creator.py:30-49 | posts the template's own data and stores the returned id |
| Entities.Template.MeritTemplateExists | templates_creator.py:51-59 | the loop over the fetched list adopts the first title match, or creates the template; the result is `ResolveTemplate` |
| Entities.Template.ToDict | templates_creator.py:61-68 | the dictionary carries the template's id, title, description, flag and field list as the object holds them |
| Entities.Field.constructor | templates_creator.py:74-88 | stores the name and the default value, converts both flags, and leaves the id, type, description and catalog as `ResolveField` gives them |
| Entities.Field.CreateField | templates_creator.py:90-105 | posts the field's name, type and description and stores the returned id |
| Entities.Field.FieldExists | templates_creator.py:107-118 | the loop over the fetched list adopts the first name match, or creates the field; the result is `ResolveField` |
| Entities.Field.ToDict | templates_creator.py:120-130 | the dictionary carries the field's id, name, type, description, both flags and the default value as the object holds them |
| Ingestion.FieldFrom | templates_creator.py:290-291 | the field built at a `field.name` column carries that cell as its name, the flags converted from the third and fourth cells after it, and the fifth cell after it as its default value |
| Ingestion.RowFields | templates_creator.py:288-293 | a row yields at most one field per cell it scans |
| Ingestion.IngestRow | templates_creator.py:284-294 | one data row yields exactly one template, with the row's title and its `canOnlyBeSentOnce` cell converted to a flag |
| Ingestion.Ingest | templates_creator.py:280-295 | one template per row not skipped, in row order, each with the row's title and flag and with its fields following the row's field columns one to one |
| Ingestion.TemplatesFileIngestion | templates_creator.py:266-295 | the loop returns exactly the templates of `Ingest`, in row order, and leaves the catalog in the state `Ingest` gives |
| Ingestion.IngestRowInto | templates_creator.py:284-294 | the loop body for a data row appends that row's template, with its fields, and updates the catalog as `IngestRow` does |
| Ingestion.AppendTemplate | templates_creator.py:285-287 | builds the row's template from its first five cells and appends its dictionary with no fields yet |
| Ingestion.AppendRowFields | templates_creator.py:288-293 | the loop over the cells appends, in column order, one field per non-blank `field.name` cell to the template at `tListPos`, and nothing else in the list changes |
| Ingestion.FieldColumns | templates_creator.py:288-289 | lists, in increasing order, exactly the columns holding a non-blank cell under `field.name` |
| Ingestion.RowFieldsFollowRow | templates_creator.py:288-293 | a row's fields follow its field columns one to one, in order, each with the CSV's own name, flags and default value |
| Ingestion.DataRows | templates_creator.py:280-284 | the rows that are not skipped, each with a first cell other than `meritTemplate.title` |
| Ingestion.IngestRowsOutline | templates_creator.py:280-295 | one template per row not skipped, in row order, with the row's title and flag and one field per field column |
| Ingestion.RowFieldsExtends | templates_creator.py:288-293 | resolving a row's fields only appends fields and leaves the templates as they were |
| Ingestion.RowFieldsResolved | templates_creator.py:288-293 | every field of a row names a catalog field with its id, name, type and description |
| Ingestion.IngestRowResolved | templates_creator.py:284-293 | a row only appends to the catalog, and the catalog holds the template and every field the row's entry refers to |
| Ingestion.IngestRowsResolved | templates_creator.py:280-295 | ingestion only appends to the catalog, and every template and field id it hands out names a matching catalog record |
| Ingestion.RowFieldsCover | templates_creator.py:288-293 | after a row's fields are resolved, the catalog has every field name of the row |
| Ingestion.RowFieldsUnchanged | templates_creator.py:288-293 | resolving fields whose names are all present creates nothing |
| Ingestion.IngestRowCovers | templates_creator.py:284-293 | after a row is ingested, the catalog has its title and all its field names |
| Ingestion.IngestRowUnchanged | templates_creator.py:284-293 | ingesting a row whose title and field names are present leaves the catalog unchanged |
| Ingestion.IngestRowsCover | templates_creator.py:280-294 | after ingestion, the catalog has the title and field names of every row not skipped |
| Ingestion.IngestRowsUnchanged | templates_creator.py:280-294 | ingesting rows whose titles and field names are all present leaves the catalog unchanged |
| Ingestion.IngestTwiceCreatesNothing | templates_creator.py:266-295 | a second ingestion of the same sheet leaves the catalog exactly as the first one left it |
| Ingestion.RowFieldsDistinct | templates_creator.py:288-293 | resolving a row's fields never gives two catalog fields the same name |
| Ingestion.IngestRowDistinct | templates_creator.py:284-293 | one row keeps catalog titles and field names distinct |
| Ingestion.IngestRowsDistinct | templates_creator.py:280-294 | starting from distinct titles and distinct field names, ingestion keeps both distinct |
| Ingestion.IngestedFieldsNamed | templates_creator.py:289 | no ingested field has a blank name |
| Ingestion.ValidatedSheetMayRaise | templates_creator.py:212-221 | the sheet of the header cell `meritTemplate.title` above a row holding only `T` passes validation, though ingestion raises `IndexError` on it |
| Settings.SettingFor | templates_creator.py:311-323 | the attach call names the template and the field and carries both flags; the default value is included, with the field id, exactly when it is non-blank |
| Settings.TemplateSettings | templates_creator.py:307-324 | a template makes at most one attach call per field, each naming that template |
| Settings.AttachCalls | templates_creator.py:306-324 | the templates make at most one attach call per field of theirs in total |
| Settings.ProgressTotal | templates_creator.py:299-305 | the first loop counts one per template plus one per call the attach loop makes |
| Settings.CreateFieldSettings | templates_creator.py:297-324 | counts the progress total, then appends exactly the calls of `AttachCalls` to the attach log and changes nothing else |
| Settings.AttachTemplates | templates_creator.py:306-324 | the loop over the templates appends exactly the calls of `AttachCalls`, template after template |
| Settings.AttachTemplateFields | templates_creator.py:307-324 | the loop over one template's fields appends exactly the calls of `TemplateSettings` for that template |
| Settings.TemplateSettingsFacts | templates_creator.py:307-324 | each call for a template belongs to one of its named fields, and every named field gets one |
| Settings.TemplateSettingsInOrder | templates_creator.py:307-311 | when every field is named, the template's calls are its fields, one each, in order |
| Settings.AttachCallsFacts | templates_creator.py:306-324 | each call belongs to a named field of one of the templates, and every named field of every template gets one |
| Settings.AttachCallsOrder | templates_creator.py:306-307 | templates are handled in list order: the calls for earlier templates come first |
| Settings.IngestedTemplatesAttachEveryField | templates_creator.py:306-324 | after ingestion, every field of every template gets exactly one attach call, in field order |

## Left out

- The popup GUI is not modelled, for it is user interface only: `userInput`, the popups and the progress meters. The error messages are reduced to a reason and a 1-based position.
- `auth` and the app-linking loop are not modelled. They are network and human interaction.
- HTTP, JSON and the session are not modelled; the server is the `Catalog` class. Created records get fresh ids from a counter, and the model does not inspect server ids, which makes them opaque. Failed requests and non-2xx replies are not modelled.
- The `limit=500` of `getTemplates`/`getFields` is not modelled: the model's lists are always complete, so no pagination gap arises.
- Reading the CSV file is not modelled, for it is file I/O: a sheet is given already split into rows of cells.
- The environment URLs and the `__main__` block are not modelled. They only choose a server and call the three steps in order.
- Ingestion.TemplatesFileIngestion: requires `Ingestible`, which excludes every sheet on which the loop would raise `IndexError`. Such sheets are an empty row, a short row, a `field.name` cell fewer than five cells from the row's end, or a non-blank cell beyond the header. The validator accepts some of these sheets: a data row holding only a title cell passes validation, yet ingestion reads its second cell and raises `IndexError` (`Ingestion.ValidatedSheetMayRaise`). The templates and fields already created before such a raise are not modelled.
- `x is not '' or None` is read as `x != ""`. The `or None` never changes the truth value, and this is what the identity test gives for the strings the CSV reader produces.
- Python aliasing is not modelled: a template's dictionary shares its `additionalFields` list with the object, and the constructors have a mutable default argument. Ingestion always passes a fresh list, so nothing observable depends on either.
- The progress counters are not modelled: the `index` counters of ingestion and field settings, and `templatesCount`. They only drive the progress meter. `Settings.ProgressTotal` models the meter's total.
