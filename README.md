# A model of the CFME test suite's coverage plugin, summary pages, tags and OpenShift custom attributes

This project models three parts of the CFME/ManageIQ end-to-end test suite in Dafny and
proves properties of them.

- **The UI-coverage plugin** (`fixtures/ui_coverage.py`) is module `UiCoverage`. It models the
  pytest hooks of `UiCoveragePlugin` and the `CoverageManager` of one appliance:
  - which runner role (`master`, `slave`, or a run without parallelizer) cleans the local
    output, publishes the collection appliance, installs the coverage hook, collects, and merges;
  - what each step runs on the appliances.

  `Store` is the state of one runner process: the session store, the runtime conf entry, the
  local conf file, the set of appliances that carry the patch's marker file, and a trace. The
  trace records every remote command, file copy and terminal message, in order. The outcomes
  of the remote commands that the code inspects are inputs (`Outcomes`).
- **The summary page, tags and policy profiles of a CFME object** (`cfme/common/__init__.py`):
  - `Policy` models `PolicyProfileAssignable`: the set of assigned profiles, and the tree
    clicks that assigning and unassigning make;
  - `Tagging` models `Taggable.get_tags` (parsing the tag lines the UI shows) and
    `Validatable.validate_tags` (comparing UI tags with database tags and with reference tags);
  - `Summaries` models `Summary.reload`, `SummaryTable.load` (its ordinary, non-multitable
    branch), `SummaryTable.reload` and `process_field`.

  A page is given as the header texts and table rows it shows.
- **The OpenShift provider** (`cfme/containers/provider/openshift.py`) is module `Openshift`.
  It models the REST payloads that `add_custom_attributes`, `edit_custom_attributes` and
  `delete_custom_attributes` post, and the form dictionary of `_form_mapping`.

`PyText` models the string built-ins these modules use:
- `str.strip`, `str.split`, `str.join` and `str.split(':', 1)`;
- `sorted` on strings;
- `str()` of integers, and Python 2's `int()` on a `unicode` value.

`Wrappers` holds `Option` and `Result`. A Python exception is a `Failure` of the operation
that raises it.

The model follows what the code does, in three places where a reader might expect more:
- A failed install is not fatal. `install()` ignores what `_install_coverage_hook`
  returns, and nothing aborts, so `CoverageManager.Install` does the same.
- There is no merge of line counts across processes. The code's `merge()` only archives
  the raw reports and fetches them; the merging code is commented out.
  `CoverageManager.Merge` does exactly what the code does.
- There is no phase check: nothing rejects `merge()` before `collect()`. The model states
  the order the hooks impose per role (`UiCoverage.SessionfinishByRole`) instead of a
  state machine.

## Model

| member | source | states |
|---|---|---|
| UiCoverage.CollectionAppliance | fixtures/ui_coverage.py:128-136 | a slave collects to the address in the conf entry (none when missing), every other role to its own appliance |
| UiCoverage.Manager | fixtures/ui_coverage.py:105-126 | fails with ApplianceVersionException exactly when the current appliance predates 5.8; otherwise a manager of the current appliance |
| UiCoverage.CoverageManager.PrintMessage | fixtures/ui_coverage.py:138-146 | appends one message to the trace |
| UiCoverage.CoverageManager.InstallSimplecov | fixtures/ui_coverage.py:177-194 | copies the gem file, then gem-installs on a downstream appliance or installs git and runs bundle on an upstream one |
| UiCoverage.CoverageManager.InstallCoverageHook | fixtures/ui_coverage.py:196-251 | succeeds iff the marker file was already there or the patch applied; the marker set then gains the appliance; the trace is the hook's commands |
| UiCoverage.HookByMarker | fixtures/ui_coverage.py:196-251 | the hook always cleans, copies and checks first; it patches exactly when the marker is missing, and installs the patch tool only when that is missing too |
| UiCoverage.CoverageManager.PatchAppliance | fixtures/ui_coverage.py:214-251 | after a missing marker file: upload and query the patch, install the patch tool from a local yum repository only when it is missing, apply the patch; success and the new marker exactly when the patch applies |
| UiCoverage.CoverageManager.InstallPatchTool | fixtures/ui_coverage.py:224-246 | writes the local repository file, uploads it, installs the patch tool and removes the repository file, in that order |
| UiCoverage.CoverageManager.Install | fixtures/ui_coverage.py:148-153 | message, simplecov, hook, restart, UI wait, whatever the hook returned |
| UiCoverage.InstallOrder | fixtures/ui_coverage.py:148-153 | install opens with its message and copies the gem file before the hook, the hook before the restart, the restart before the UI wait |
| UiCoverage.CoverageManager.CollectReports | fixtures/ui_coverage.py:253-268 | stops the server; raises KeyError exactly when a slave has no published collection appliance; otherwise ships the reports when that appliance is another one |
| UiCoverage.CollectReportsByTarget | fixtures/ui_coverage.py:253-268 | the reports go to `to` exactly when `to` is the collection appliance and differs from this one; the error message appears exactly when that copy fails |
| UiCoverage.CoverageManager.Collect | fixtures/ui_coverage.py:155-158 | message, the report collection, then a restart unless the collection raised |
| UiCoverage.CollectPhases | fixtures/ui_coverage.py:155-158 | a collect announces exactly one phase, the collect phase |
| UiCoverage.CoverageManager.Merge | fixtures/ui_coverage.py:160-175 | archives and fetches the raw reports from the collection appliance; no failure escapes, each one becomes the failure message |
| UiCoverage.MergePhases | fixtures/ui_coverage.py:160-175 | a merge announces exactly one phase, the merge phase |
| UiCoverage.MergeEnds | fixtures/ui_coverage.py:160-175 | a merge ends with the fetched archive, or with the failure message when fetching raised or no collection appliance is known |
| UiCoverage.PytestConfigure | fixtures/ui_coverage.py:299-303 | cleans the output unless slave, and removes the conf file when it exists; afterwards there is no conf file |
| UiCoverage.ConfigureByRole | fixtures/ui_coverage.py:299-303 | the output is cleaned iff the role is not slave; the conf file is removed iff it existed |
| UiCoverage.PytestSessionstart | fixtures/ui_coverage.py:305-312 | only a master acts: it raises the version guard on an old appliance, otherwise it publishes and saves its own hostname as the collection appliance |
| UiCoverage.PytestCollectionFinish | fixtures/ui_coverage.py:314-319 | every role but master installs on its appliance (or raises the version guard); a master does nothing |
| UiCoverage.PytestSessionfinish | fixtures/ui_coverage.py:321-331 | collect unless master, stop after collecting if slave, merge otherwise; a collect that raises ends the hook |
| UiCoverage.SessionfinishByRole | fixtures/ui_coverage.py:321-331 | the phases session finish goes through: master merge only, slave collect only, no parallelizer collect then merge |
| UiCoverage.PublishedAddressReachesSlaves | fixtures/ui_coverage.py:305-331 | the hostname a master publishes is where its slaves ship their reports and where the master archives them |
| Policy.PolicyProfileAssignable.constructor | cfme/common/__init__.py:30-36 | a fresh object has no assigned profiles and no clicks |
| Policy.PolicyProfileAssignable.AssignPolicyProfiles | cfme/common/__init__.py:38-46 | the assigned set gains the names; one check click per name, in order |
| Policy.PolicyProfileAssignable.UnassignPolicyProfiles | cfme/common/__init__.py:48-60 | the assigned set loses the names (missing ones are ignored); one uncheck click per name, in order |
| Policy.PolicyProfileAssignable.AssignUnassign | cfme/common/__init__.py:62-79 | one check or uncheck click per name, in argument order |
| Policy.LastMentionDecides | cfme/common/__init__.py:38-60 | after any sequence of assigns and unassigns, a profile is assigned iff its last mention was an assign, or it was never mentioned and was assigned at the start |
| Policy.AssignThenUnassign | cfme/common/__init__.py:38-60 | assigning and then unassigning the same names removes them, whatever the start |
| Tagging.ParseEntry | cfme/common/__init__.py:116-125 | a line fails iff it has no ':' (or, as written, is multi-valued with an empty filter); every parsed tag has no single_value and a stripped name |
| Tagging.EntryTags | cfme/common/__init__.py:116-125 | the loop over one line yields that line's tags under the chosen reading |
| Tagging.SubTags | cfme/common/__init__.py:119-122 | one tag per bar-separated name of a multi-valued line, in order, stripped |
| Tagging.GetTags | cfme/common/__init__.py:109-126 | the loop over the UI lines yields the tags of all lines in order, up to the no-tags line |
| Tagging.ParseTagsStopsAtNoTagsLine | cfme/common/__init__.py:113-115 | lines after the "No ... have been assigned" line are never read |
| Tagging.ParseTagsFailsIff | cfme/common/__init__.py:116-118 | get_tags raises iff some line before the no-tags line is malformed |
| Tagging.ParseTagsAppend | cfme/common/__init__.py:111-126 | the tags of two blocks of lines are the first block's tags followed by the second's |
| Tagging.ParseRendered | cfme/common/__init__.py:116-125 | a rendered multi-valued line `category: a, b` joined by bars parses to its names, under the category the reading picks |
| Tagging.IntendedLineRoundTrip | cfme/common/__init__.py:116-125 | read as intended, parsing a rendered line gives back that line's tags |
| Tagging.IntendedRoundTrip | cfme/common/__init__.py:109-126 | read as intended, parsing the rendered lines of any tag groups gives back all their tags in order |
| Tagging.AsWrittenMultiValuedCategory | cfme/common/__init__.py:119-122 | as written, every tag of a multi-valued line is filed under the first character of the filter, so never under a longer category |
| Tagging.AsWrittenDepartmentExample | cfme/common/__init__.py:119-122 | as written, the line `Department: Accounting, Engineering` (joined by a bar) of `My Company Tags` gives both tags category `M` |
| Tagging.SortByKeyKeeps | cfme/common/__init__.py:472-473 | sorting the tags by (category, name) is a permutation |
| Tagging.SortByKeyKeepsKeys | cfme/common/__init__.py:472-473 | sorting keeps the multiset of (category, name) keys |
| Tagging.SortByKeySorted | cfme/common/__init__.py:472-473 | the sorted keys are in lexicographic order |
| Tagging.SortedUnique | cfme/common/__init__.py:472-473 | two sorted key lists with the same multiset are equal |
| Tagging.SortedKeysAgree | cfme/common/__init__.py:471-482 | the sorted UI and database keys are equal iff the two key multisets are equal |
| Tagging.CompareSorted | cfme/common/__init__.py:474-482 | no mismatch iff the sorted lists agree position by position on category and name |
| Tagging.CompareWithDb | cfme/common/__init__.py:468-482 | no mismatch iff the counts are equal and the key multisets agree; a count mismatch iff the lengths differ |
| Tagging.CheckReference | cfme/common/__init__.py:485-494 | no mismatch iff the reference is backed by the database; NotFound iff no database tag has its category and name |
| Tagging.CheckReferences | cfme/common/__init__.py:484-494 | no mismatch iff every reference is backed; a NotFound names a reference with no database tag |
| Tagging.ValidateTags | cfme/common/__init__.py:452-494 | passes iff the UI tags exist, match the database tags as a multiset and every reference is backed; each failure cause is named by its exact condition (KeyError for a non-list, count, category or name, single_value, not found) |
| Tagging.SingleLine | cfme/common/__init__.py:113-126 | a page of one tag line is parsed from that line alone |
| Tagging.AsWrittenFailsValidation | cfme/common/__init__.py:452-494 | as written, a multi-valued line whose category is not one character never validates against the database tags it shows |
| Tagging.IntendedPassesValidation | cfme/common/__init__.py:452-494 | read as intended, the UI lines rendered from the database's tags always validate |
| Summaries.ProcessFieldShape | cfme/common/__init__.py:417-424 | process_field keeps every cell in order; a one-cell tuple becomes a single value, a longer one a list; a list field maps row by row |
| Summaries.ConcatShapedRows | cfme/common/__init__.py:417-424 | the values of a list field, flattened, are its rows' cells in order |
| Summaries.GroupRowsEntries | cfme/common/__init__.py:310-328 | the grouping gives one entry per label row, in row order, keyed by the attributized label, list-valued iff the label has a rowspan |
| Summaries.GroupRowsCells | cfme/common/__init__.py:310-328 | the grouping loses and reorders no cell: the entries' cells are all the rows' cells in order |
| Summaries.LastRowDecides | cfme/common/__init__.py:310-328 | a grouping fails iff its last row is a bad one |
| Summaries.FailingRow | cfme/common/__init__.py:310-328 | a load that raises has a row that is empty, or that continues a field when no label precedes it or the last label before it has no row span |
| Summaries.BadRowFails | cfme/common/__init__.py:310-328 | such a row makes the load raise |
| Summaries.GroupRowsFailsIff | cfme/common/__init__.py:310-328 | load raises iff some row is empty, or is a continuation row with no label row before it, or one whose last label row before it has no row span |
| Summaries.FailureSticks | cfme/common/__init__.py:310-328 | once the grouping has failed, later rows do not change the result |
| Summaries.GroupRow | cfme/common/__init__.py:311-328 | one row either opens a field, extends the last list field, or raises |
| Summaries.GroupTableRows | cfme/common/__init__.py:310-328 | the loop over the rows groups them as the grouping function says |
| Summaries.SetFieldsKeys | cfme/common/__init__.py:329-333 | after load, the attributes are the old ones plus one per field key (for keys that name none of the table's own members) |
| Summaries.SetFieldsOther | cfme/common/__init__.py:329-333 | attributes that are not field keys keep their values |
| Summaries.SetFieldsLast | cfme/common/__init__.py:329-333 | a field key's attribute holds the processed value of its last field with that key |
| Summaries.SummaryTable.constructor | cfme/common/__init__.py:240-253 | a new table has its title, no keys, no raw keys and no attributes |
| Summaries.SummaryTable.Load | cfme/common/__init__.py:265-333 | on a failing grouping the keys are cleared and the attributes are untouched; otherwise keys, raw keys and attributes are the grouped fields' |
| Summaries.SummaryTable.Reload | cfme/common/__init__.py:335-342 | removes the current keys' attributes, then loads again |
| Summaries.Loadable | cfme/common/__init__.py:213-218 | the number of headers that load before the first table that raises |
| Summaries.Summary.constructor | cfme/common/__init__.py:197-200 | a new summary has no keys and no tables |
| Summaries.Summary.ClearTables | cfme/common/__init__.py:206-210 | removes the table of every current key and nothing else |
| Summaries.LastHeader | cfme/common/__init__.py:213-218 | the last header with a given attribute name, present iff some header has that name |
| Summaries.LastHeaderSteps | cfme/common/__init__.py:213-218 | after one more header, that header is the last with its own name, and every other name keeps its last header |
| Summaries.Summary.AddTable | cfme/common/__init__.py:213-218 | a header whose table raises changes nothing; otherwise its key is appended and a fresh table is stored under it, holding the header's text, the grouped labels and keys, and the fields set from an empty object |
| Summaries.Summary.LoadHeaders | cfme/common/__init__.py:213-218 | the headers load in order up to the first that raises; the keys are those headers' ids, each with a fresh table that holds what the last loaded header with that id gives; other tables are untouched |
| Summaries.Summary.Reload | cfme/common/__init__.py:205-218 | the old tables are removed, then the headers load as LoadHeaders says, each key's table holding what the last loaded header with that id gives |
| PyText.Strip | cfme/common/__init__.py:122 | the result has no whitespace at either end, whitespace being what Python 2.7's `unicode.isspace()` accepts |
| PyText.StripShape | cfme/common/__init__.py:122 | strip returns a stripped slice of its input and removes only whitespace around it |
| PyText.Split | cfme/common/__init__.py:120 | split always yields at least one piece |
| PyText.SplitPieces | cfme/common/__init__.py:119-120 | the separator occurs iff split yields two or more pieces |
| PyText.JoinSplit | cfme/common/__init__.py:120 | joining the pieces of a split with the separator restores the string |
| PyText.SplitPiecesFree | cfme/common/__init__.py:120 | no piece of a split contains the separator |
| PyText.SplitJoinBarless | cfme/common/__init__.py:120 | splitting names joined by the bar separator gives them back when none holds a bar |
| PyText.SplitOnce | cfme/common/__init__.py:116-117 | none iff the character is missing; otherwise the text before its first occurrence and the rest |
| PyText.SplitOnceAt | cfme/common/__init__.py:116 | splitting at the first occurrence recovers both halves |
| PyText.StrLeTotal | cfme/common/__init__.py:472-473 | string order is total |
| PyText.StrLeAntisymmetric | cfme/common/__init__.py:472-473 | string order is antisymmetric |
| PyText.StrLeTransitive | cfme/common/__init__.py:472-473 | string order is transitive |
| PyText.NatToStrRoundTrip | cfme/containers/provider/openshift.py:148 | the decimal text of a natural number reads back as that number |
| PyText.EncodeDecimal | cfme/common/__init__.py:319-321 | a `unicode` value encodes iff every character is whitespace or a Latin-1 character other than NUL; whitespace becomes a blank and every other character is kept |
| PyText.ParseBytesForm | cfme/common/__init__.py:319-321 | C whitespace, an optional sign, C whitespace after a sign only, digits and C whitespace are read as the signed digits |
| PyText.ParseBytesOnlyForm | cfme/common/__init__.py:319-321 | only such byte strings are read: every one `int()` accepts splits into those pieces, and its value is the signed digits |
| PyText.ParseIntSpaceAfterSign | cfme/common/__init__.py:319-321 | `int(u'- 5')` is -5 |
| PyText.ParseIntTabAfterSign | cfme/common/__init__.py:319-321 | `int(u' +\t7 ')` is 7: the tab is encoded as a blank and skipped |
| PyText.ParseDigits | cfme/common/__init__.py:319-321 | the decimal text of a natural number is read as that number |
| PyText.IntToStrRoundTrip | cfme/common/__init__.py:318-321 | int() of str() of any integer is that integer |
| Openshift.StrIntReadsBack | cfme/containers/provider/openshift.py:148 | str() of an integer value reads back as that integer |
| Openshift.AddCustomAttributes | cfme/containers/provider/openshift.py:131-154 | TypeError iff there are no arguments or one is not a CustomAttribute; otherwise action add and one resource per argument, in order, with name, str(value) and field_type exactly when truthy |
| Openshift.AddedIntReadsBack | cfme/containers/provider/openshift.py:144-149 | an added integer value is posted as text that reads back as that integer |
| Openshift.SelectedMembers | cfme/containers/provider/openshift.py:198-202 | an attribute is selected iff it exists and its name is listed |
| Openshift.SelectedAppend | cfme/containers/provider/openshift.py:198-202 | selection keeps the existing attributes' order |
| Openshift.SelectAll | cfme/containers/provider/openshift.py:195-197 | selecting by the names of all existing attributes selects them all |
| Openshift.LastNamed | cfme/containers/provider/openshift.py:173 | the index of the last existing attribute with a name, or none when no attribute has it |
| Openshift.SelectedLastIsLastNamed | cfme/containers/provider/openshift.py:173 | the last element of the name filter is the last attribute with that name |
| Openshift.EditCustomAttributes | cfme/containers/provider/openshift.py:156-164 | bad arguments raise TypeError before anything else |
| Openshift.EditResourcesMeaning | cfme/containers/provider/openshift.py:169-175 | from any argument on, the comprehension raises IndexError iff a later argument names no attribute, else it adds one resource per argument |
| Openshift.EditResourcesFails | cfme/containers/provider/openshift.py:169-175 | from any argument on, the comprehension raises iff a later argument names no existing attribute, and what it raises is IndexError |
| Openshift.EditResourcesPayload | cfme/containers/provider/openshift.py:169-177 | a successful comprehension keeps the resources already built and adds, per later argument, the href of the last existing attribute with its name and its value |
| Openshift.EditMeaning | cfme/containers/provider/openshift.py:156-177 | TypeError iff bad arguments, IndexError iff an argument names no existing attribute, else action edit with one resource per argument aimed at the last existing attribute of its name, with its value |
| Openshift.DeleteCustomAttributes | cfme/containers/provider/openshift.py:179-204 | TypeError iff an argument is neither str nor exactly CustomAttribute; otherwise action delete with the hrefs of the selected attributes, in provider order |
| Openshift.DeleteAllWhenNoNames | cfme/containers/provider/openshift.py:195-197 | with no names, every existing attribute is deleted |
| Openshift.DeleteSelectsNamed | cfme/containers/provider/openshift.py:186-202 | with arguments, exactly the existing attributes some argument names are deleted |
| Openshift.FormMapping | cfme/containers/provider/openshift.py:45-79 | a certificate is sent iff its protocol is the custom CA; newer appliances keep the hawkular fields only with hawkular; older ones drop the protocols; type is OpenShift iff create is truthy |
| Openshift.HawkularCertificateWithoutProtocol | cfme/containers/provider/openshift.py:50-67 | without a hawkular endpoint the hawkular certificate is still sent, with no hawkular protocol |

## Left out

- Browser, DOM and SSH work (finding elements, clicking, `load_details`, `ssh_client`, `get_file`, `put_file`) is left out. Its results are inputs to the model, and what it does is recorded as trace effects.
- Logging (`self.log`, sub-loggers) is left out. Terminal output is a `Message` effect, without `print_message`'s routing to the slave manager, the parallel session or the terminal reporter.
- `UiCoverage.CollectReports`: the message for a failed copy leaves out `str(result)` of the copy's result.
- The version comparisons (`version < '5.8'`, `version > '5.8.0.3'`) are booleans, and so is `version.pick`. The model does not compare version strings.
- Appliance equality (`store.current_appliance != self.collection_appliance`) is equality of hostnames. The model re-reads the collection appliance once per step rather than each time the code does.
- `CoverageManager.__init__` is modelled only through its version guard. In the code, `manager()` returns `appliance.coverage`, which the appliance caches; the model's `UiCoverage.Manager` builds one per hook instead. Both give the same behaviour here, because the manager carries no state of its own.
- The exceptions of remote commands other than the merge's retrieval are not modelled. The commands always return, and only the outcomes the code inspects are inputs.
- The commented-out merge (`_merge_coverage_reports`, `_retrieve_merged_reports`, `_upload_coverage_merger`) is not modelled, because the code never calls it. A merge of line counts across processes is likewise not modelled, because the code does not implement one.
- `pytest_addoption`, `pytest_cmdline_main` and `clean_coverage_dir`'s file-system work are single effects or are left out.
- `get_tags_db`, `SummaryValue.value`/`text_value`/`link`/`img`, the `num_*` counters, `from_config`, `custom_attributes()`, `href()` and `get_cert()` are not part of this model. Their results are inputs: the database tags, the existing attributes, the certificate.
- The UI lines are an input of `Tagging.GetTags`, and so is the reading: `AsWritten` is the code as it stands, `Intended` the corrected category of the finding below.
- `Summaries.SummaryTable.Load` and `Summaries.Summary.AddTable` keep fields and tables in a map of their own, apart from the object's members. In the code they are attributes of the object itself. So `setattr` raises `AttributeError` for a field named `keys` or `raw_keys`, or a table named `group_names`, because those are read-only properties. It raises mid-loop, after the earlier fields and keys are set. A field or table named after a method (`load`, `reload`, `items`, `groups`) hides that method, so a later call of it raises `TypeError`. The model does not capture this collision: such names load like any other name, and the contracts of `SetFieldsKeys`, `LoadHeaders` and `Reload` cover them like any other key.
- The multitable branch of `SummaryTable.load` is left out. Its grouping is by UI column and needs the DOM.
- `attributize_string` is a parameter of the summary operations. The rowspan attribute is taken as a `unicode` value, `int()` of it is `PyText.ParseInt`, and a missing attribute is `None`, whose `int()` raises `TypeError`, so the row span is then `None` too.
- `PyText.ParseInt` and `PyText.EncodeDecimal`: a non-ASCII Unicode decimal digit, which `PyUnicode_EncodeDecimal` maps to its ASCII digit through the Unicode database, is refused as unencodable; the model has no digit table of the Unicode database.
- `PyText.ParseInt`: a value beyond the platform's C `long` goes to `PyLong_FromString`, which does not skip whitespace after the sign; the model reads it like a smaller value.
- `Summary.__init__` calls `reload`. `Summaries.Summary.constructor` leaves that call to the caller (`Summary.Reload`).
- `Summaries.SummaryTable.Load`: with a label row that has a rowspan followed by a tuple row, the code appends to the list in place. The model states the same grouping on values and does not model the aliasing of that list.
- `process_field` returns Python 2 `map` lists. The model's `ProcessField` returns the same shapes as datatypes, not as `SummaryValue` objects.
- `AddCustomAttributes`: an attribute value is `None`, a `bool`, an `int` or a byte `str`. `str()` of a `unicode` value with a non-ASCII character raises `UnicodeEncodeError`, and `float`, `long` and date values have their own `str()` forms; none of these is modelled.
- Argument types are four cases: exactly a `CustomAttribute`, an instance of a subclass of it (accepted by add and edit, refused by delete's exact type test), a `str`, or anything else. Subclasses of `str` and `unicode` values fall under anything else, as delete's type test treats them.
- The REST call itself (`rest_api.post`) is left out. The model returns the payload that would be posted.

## Findings

| source | as written | input that shows it | evidently intended | confidence | as-written member | corrected member |
|---|---|---|---|---|---|---|
| cfme/common/__init__.py:121 | the tags of a multi-valued UI line get the first character of the `tag` filter argument as their category | `get_tags()` with the default filter `My Company Tags` and the UI line `Department: Accounting` bar `Engineering` gives two tags of category `M` | the category is the text before ':' on that line (`Department`), as for single-valued lines | not executed | Tagging.AsWrittenDepartmentExample | Tagging.IntendedRoundTrip |
