# verinice element-graph core in Dafny

This project models the core of verinice's element and graph layer, and proves properties of that model.

- **Lazy-load tracker** (`Retriever`). It decides, facet by facet, whether a partially loaded `CnATreeElement` is already in memory. The facets are properties, children, permissions, parent, links down and links up. When a facet is missing, it issues one `RetrieveCnATreeElement` command naming the missing facets.
- **Graph-command base** (`GraphCommand`). It collects element loaders and relation ids, builds a `VeriniceGraph` through the graph service, and only then runs the subclass hook.
- **Orphan cleanup** (`Cleaner`). In an organization's graph, it finds the incident scenarios without an asset link. For each one it removes the linked controls, then the linked vulnerabilities, then the scenario. The first failed removal ends the run.
- **`LoadElementsByUuid`**. One DAO lookup per distinct uuid, with a fixed `RetrieveInfo`. Uuids that find nothing are skipped.
- **The file view's `TableComparator`**. A column and direction changed by clicks on the column headers, and a null-aware comparison of attachments by that column.
- **`IconSelectDialog`**. It turns a chosen icon's path into a path relative to `tree-icons`, filters icon files by their extension, and reports whether something was chosen.
- **`HUITypeFactory` lookups**. Resource-bundle keys, the tag list, message resolution with stored defaults, the relations that lead to an entity type, and the property group of a property.

Files, one module each:

- `wrappers.dfy`: `Option` and `Result`.
- `java_strings.dfy`: the `java.lang.String` and `Integer` operations the core relies on, including `compareTo`, `split`, `parseInt` and int negation.
- `graphs.dfy`: the graph as the commands see it, and a graph service that records each `create` call.
- `retriever.dfy`, `graph_command.dfy`, `cleaner.dfy`, `load_elements.dfy`, `file_view.dfy`, `icon_select.dfy` and `hui_type_factory.dfy`: one module per core source file.

Modelling conventions:

- A Java `null` is `None`.
- An exception is an `Err` value. Checked exceptions from the services become a failure the service stand-in reports.
- Collaborators the core only calls are parameters or fields holding functions:
  - the command service's retrieve and remove commands;
  - the DAO's `findByUuid`;
  - `NumericStringComparator`;
  - the `SNCAMessages` bundle.
- Where the source mutates an object (`GraphCommand`, `Cleaner`, `LoadElementsByUuid`, `TableComparator`, the factory's tag and message maps), the model is a class whose methods state the new state.
- Where the source only computes, the model is functions and lemmas.

How the cleanup handles a failed removal:

- The whole scan runs in one `try`.
- The first `CommandException` ends it, and later orphans are not processed.
- The exception is logged, not rethrown, so the caller sees no failure.

## Model

| member | source | states |
|---|---|---|
| Retrieval.SimpleFacetLoaded | sernet.gs.service/src/sernet/gs/service/Retriever.java:177-186 | For children, permissions, parent and links, "every reachable container initialized" is the two-level Hibernate test: element initialized, and its collection initialized or null |
| Retrieval.IsPropertiesInitialized | sernet.gs.service/src/sernet/gs/service/Retriever.java:164-175 | True exactly when the property list and its properties collection are fully loaded; null counts as loaded |
| Retrieval.IsPropertyListInitialized | sernet.gs.service/src/sernet/gs/service/Retriever.java:149-162 | True exactly when the typed-property-list map and every property list in it are fully loaded, with early exit on the first unloaded list |
| Retrieval.IsEntityInitialized | sernet.gs.service/src/sernet/gs/service/Retriever.java:139-147 | True exactly when the entity and everything below it are loaded; a null entity is loaded |
| Retrieval.IsElementInitialized | sernet.gs.service/src/sernet/gs/service/Retriever.java:129-137 | True exactly when the element, its entity, the map, every list and each list's properties are initialized; a null element or sub-container counts as initialized |
| Retrieval.AreChildrenInitialized | sernet.gs.service/src/sernet/gs/service/Retriever.java:177-181 | Equals the reference definition of "children facet loaded" |
| Retrieval.ArePermissionsInitialized | sernet.gs.service/src/sernet/gs/service/Retriever.java:183-186 | Equals the reference definition of "permissions facet loaded" |
| Retrieval.IsParentInitialized | sernet.gs.service/src/sernet/gs/service/Retriever.java:123-127 | Equals the reference definition of "parent facet loaded" |
| Retrieval.AreLinksInitializedAsWritten | sernet.gs.service/src/sernet/gs/service/Retriever.java:214-223 | A null element ends in NullPointerException; otherwise true iff down-links are loaded and, only when upLinks is set, up-links too |
| Retrieval.AreLinksInitialized | sernet.gs.service/src/sernet/gs/service/Retriever.java:214-223 | For a non-null element: down-links loaded, and up-links loaded only when upLinks is set |
| Retrieval.Fetched | sernet.gs.service/src/sernet/gs/service/Retriever.java:192-201 | A failed command becomes an error carrying the command's cause and yields no element; a successful one yields the command's element |
| Retrieval.RetrieveElement | sernet.gs.service/src/sernet/gs/service/Retriever.java:188-201 | Exactly one request with the element's id and the given RetrieveInfo; with a store that honours requests, the returned element has every requested facet |
| Retrieval.CheckRetrieveElement | sernet.gs.service/src/sernet/gs/service/Retriever.java:45-53 | No fetch and the input returned when properties are loaded; otherwise exactly one properties-only fetch, whose result is returned |
| Retrieval.CheckRetrieveChildren | sernet.gs.service/src/sernet/gs/service/Retriever.java:55-63 | No fetch when children are loaded; otherwise exactly one children-only fetch |
| Retrieval.CheckRetrievePermissions | sernet.gs.service/src/sernet/gs/service/Retriever.java:65-75 | No fetch when permissions are loaded; otherwise one fetch asking for permissions only |
| Retrieval.CheckRetrieveElementAndChildren | sernet.gs.service/src/sernet/gs/service/Retriever.java:77-97 | No fetch when both are loaded; otherwise one fetch whose properties flag is set iff properties were missing and whose children flag is set iff children were missing |
| Retrieval.CheckRetrieveParent | sernet.gs.service/src/sernet/gs/service/Retriever.java:99-109 | A null element is returned unchanged with no fetch; a loaded parent causes no fetch; otherwise one parent-only fetch |
| Retrieval.CheckRetrieveLinksAsWritten | sernet.gs.service/src/sernet/gs/service/Retriever.java:111-121 | As the source is written: a null element ends in NullPointerException before the null guard is reached; otherwise as the corrected version |
| Retrieval.LinksFetches | sernet.gs.service/src/sernet/gs/service/Retriever.java:111-121 | A fetch happens iff the links are not loaded, and it always asks for both link directions, whatever upLinks is |
| Retrieval.CheckRetrieveLinks | sernet.gs.service/src/sernet/gs/service/Retriever.java:111-121 | A null element is returned with no fetch; loaded links cause no fetch; otherwise one fetch of both directions, after which the links are loaded |
| Retrieval.NullElementIsLoaded | sernet.gs.service/src/sernet/gs/service/Retriever.java:123-222 | A null element passes the tests for properties, children, permissions and parent, so none of them is fetched; the link test instead ends in NullPointerException for a null element |
| Retrieval.PropertiesIgnoreOtherFacets | sernet.gs.service/src/sernet/gs/service/Retriever.java:129-137 | Whether properties are loaded does not depend on the children or permissions collections |
| Graphs.GraphService.Create | sernet.gs.service/src/sernet/verinice/interfaces/GraphCommand.java:77-80 | Each create call is recorded once, and its graph is the one the service builds for that request |
| GraphCommands.GraphRequestFor | sernet.gs.service/src/sernet/verinice/interfaces/GraphCommand.java:72-82 | With loadLinks, the relation filter is null iff the id list is null or empty, and otherwise exactly the list in order; without loadLinks, the node-only variant with the same loaders |
| GraphCommands.GraphCommand.constructor | sernet.gs.service/src/sernet/verinice/interfaces/GraphCommand.java:43-49 | A new command loads links, has no loader or relation-id list, and has no graph |
| GraphCommands.GraphCommand.Execute | sernet.gs.service/src/sernet/verinice/interfaces/GraphCommand.java:56-59 | One create call with the request initGraph makes, the graph stored, and the hook run after the graph was built |
| GraphCommands.GraphCommand.ExecuteWithGraph | sernet.gs.service/src/sernet/verinice/interfaces/GraphCommand.java:67-69 | The base hook runs after the graph exists and changes nothing else |
| GraphCommands.GraphCommand.InitGraph | sernet.gs.service/src/sernet/verinice/interfaces/GraphCommand.java:72-82 | Exactly one create call with GraphRequestFor of the flag, the loaders and the id list; the loader list exists afterwards |
| GraphCommands.GraphCommand.GetLoader | sernet.gs.service/src/sernet/verinice/interfaces/GraphCommand.java:85-90 | A missing list becomes an empty one; an existing list is returned unchanged |
| GraphCommands.GraphCommand.SetLoader | sernet.gs.service/src/sernet/verinice/interfaces/GraphCommand.java:93-95 | The loader list is replaced |
| GraphCommands.GraphCommand.AddLoader | sernet.gs.service/src/sernet/verinice/interfaces/GraphCommand.java:98-100 | Exactly one loader appended after the existing ones |
| GraphCommands.GraphCommand.SetLoadLinks | sernet.gs.service/src/sernet/verinice/interfaces/GraphCommand.java:102-104 | The flag is set |
| GraphCommands.GraphCommand.GetRelationIds | sernet.gs.service/src/sernet/verinice/interfaces/GraphCommand.java:107-112 | A missing list becomes an empty one; an existing list is returned unchanged |
| GraphCommands.GraphCommand.SetRelationIds | sernet.gs.service/src/sernet/verinice/interfaces/GraphCommand.java:115-117 | The relation-id list is replaced |
| GraphCommands.GraphCommand.AddRelationId | sernet.gs.service/src/sernet/verinice/interfaces/GraphCommand.java:120-122 | Exactly one id appended at the end |
| GraphCommands.GraphCommand.SetGraphService | sernet.gs.service/src/sernet/verinice/interfaces/GraphCommand.java:137-139 | The graph service is set |
| GraphCommands.ConfigureAndExecute | sernet.gs.service/src/sernet/verinice/interfaces/GraphCommand.java:72-82 | Ids added one by one reach the service in the order added; after links are switched off, the node-only variant is requested |
| GsmCleaner.FirstFailure | sernet.gs.server/src/sernet/verinice/bpm/gsm/Cleaner.java:60-74 | The position of the first rejected removal: every earlier one is accepted, and the one at that position is not |
| GsmCleaner.FirstFailureUnique | sernet.gs.server/src/sernet/verinice/bpm/gsm/Cleaner.java:60-74 | Any position before which all removals succeed and at which one fails is the first failure |
| GsmCleaner.CompletesIff | sernet.gs.server/src/sernet/verinice/bpm/gsm/Cleaner.java:60-74 | A run completes iff every removal of the plan is accepted |
| GsmCleaner.IssuedStopsAtFirstFailure | sernet.gs.server/src/sernet/verinice/bpm/gsm/Cleaner.java:60-74 | The removals issued are a prefix of the plan, all accepted except possibly the last; the whole plan when nothing fails, and a rejected last removal otherwise |
| GsmCleaner.IssuedAppend | sernet.gs.server/src/sernet/verinice/bpm/gsm/Cleaner.java:64-70 | Running p then q issues p's removals and, only if all of p succeeded, q's |
| GsmCleaner.BlockFailsAtControls | sernet.gs.server/src/sernet/verinice/bpm/gsm/Cleaner.java:84-87 | A failed control removal ends the block: no vulnerability or scenario removal follows |
| GsmCleaner.BlockFailsAtVulnerabilities | sernet.gs.server/src/sernet/verinice/bpm/gsm/Cleaner.java:88-93 | After all controls, a failed vulnerability removal ends the block before the scenario |
| GsmCleaner.BlockReachesScenario | sernet.gs.server/src/sernet/verinice/bpm/gsm/Cleaner.java:94-95 | When all controls and vulnerabilities were removed, the scenario's removal is issued, and the block succeeds iff it is accepted |
| GsmCleaner.ScanIssued | sernet.gs.server/src/sernet/verinice/bpm/gsm/Cleaner.java:64-70 | One more scenario's block extends the log by that block's issued removals, and the run continues iff the block succeeded |
| GsmCleaner.PlanStep | sernet.gs.server/src/sernet/verinice/bpm/gsm/Cleaner.java:64-70 | The plan for the first i+1 scenarios is the plan for the first i, followed by scenario i's block if it is an orphan |
| GsmCleaner.PlanConcat | sernet.gs.server/src/sernet/verinice/bpm/gsm/Cleaner.java:64-70 | The plan of two scenario sequences in a row is the concatenation of their plans |
| GsmCleaner.RemovalOrder | sernet.gs.server/src/sernet/verinice/bpm/gsm/Cleaner.java:82-95 | An orphan's removals are contiguous, right after the earlier scenarios' removals: its controls, then its vulnerabilities, then the scenario |
| GsmCleaner.ScenarioRemovals | sernet.gs.server/src/sernet/verinice/bpm/gsm/Cleaner.java:63-69 | In a well-typed graph, a scenario is removed exactly once if it has no asset link, and never if it has one |
| GsmCleaner.AssetsNeverRemoved | sernet.gs.server/src/sernet/verinice/bpm/gsm/Cleaner.java:63-95 | In a well-typed graph, no asset is ever in the removal plan |
| GsmCleaner.IssuedRemovesNoAsset | sernet.gs.server/src/sernet/verinice/bpm/gsm/Cleaner.java:60-74 | However the removals fail, no asset is ever sent for removal |
| GsmCleaner.CommandService.ExecuteRemove | sernet.gs.server/src/sernet/verinice/bpm/gsm/Cleaner.java:85-86 | One removal request appended to the log; whether it succeeds is decided by the service |
| GsmCleaner.Cleaner.CleanUpOrganization | sernet.gs.server/src/sernet/verinice/bpm/gsm/Cleaner.java:60-74 | One graph request for the organization; the log grows by exactly the removal plan over the graph's scenarios, cut after the first failure |
| GsmCleaner.Cleaner.DeleteScenarioAndControl | sernet.gs.server/src/sernet/verinice/bpm/gsm/Cleaner.java:76-96 | The log grows by the scenario's block (controls, vulnerabilities, scenario) cut after the first failure; success iff the whole block was accepted |
| GsmCleaner.Cleaner.RemoveEach | sernet.gs.server/src/sernet/verinice/bpm/gsm/Cleaner.java:84-87 | The log grows by the targets in order, up to and including the first rejected one |
| GsmCleaner.Cleaner.InitGraph | sernet.gs.server/src/sernet/verinice/bpm/gsm/Cleaner.java:98-104 | One create call with a single loader over the four type ids and the organization scope, filtered to the three relation ids |
| GsmCleaner.Cleaner.SetGraphService | sernet.gs.server/src/sernet/verinice/bpm/gsm/Cleaner.java:110-112 | The graph service is set |
| GsmCleaner.Cleaner.SetCommandService | sernet.gs.server/src/sernet/verinice/bpm/gsm/Cleaner.java:118-120 | The command service is set |
| GsmCleaner.CleanupExample | sernet.gs.server/src/sernet/verinice/bpm/gsm/Cleaner.java:63-95 | A scenario without an asset link is removed after its control and vulnerability; one with an asset link is kept |
| LoadElements.DaoOf | sernet.gs.service/src/sernet/verinice/service/commands/LoadElementsByUuid.java:106-115 | The cached DAO if there is one; otherwise the generic element DAO without a type id, and the type's DAO with one |
| LoadElements.FoundIff | sernet.gs.service/src/sernet/verinice/service/commands/LoadElementsByUuid.java:83-91 | An element is in the result iff some uuid of the command finds it |
| LoadElements.FoundAdd | sernet.gs.service/src/sernet/verinice/service/commands/LoadElementsByUuid.java:84-90 | One more uuid adds its element when found, and nothing when not found |
| LoadElements.FoundAtMostOnePerUuid | sernet.gs.service/src/sernet/verinice/service/commands/LoadElementsByUuid.java:82-91 | The result is never larger than the set of distinct uuids |
| LoadElements.LoadElementsByUuid.OfType | sernet.gs.service/src/sernet/verinice/service/commands/LoadElementsByUuid.java:65-74 | The uuid list collapses to its set, the type id is kept, and a null RetrieveInfo becomes an empty one |
| LoadElements.LoadElementsByUuid.constructor | sernet.gs.service/src/sernet/verinice/service/commands/LoadElementsByUuid.java:53-55 | No type id, an empty RetrieveInfo, and the uuids as a set |
| LoadElements.LoadElementsByUuid.WithInfo | sernet.gs.service/src/sernet/verinice/service/commands/LoadElementsByUuid.java:57-59 | No type id, the given RetrieveInfo or an empty one for null |
| LoadElements.LoadElementsByUuid.OfTypeOnly | sernet.gs.service/src/sernet/verinice/service/commands/LoadElementsByUuid.java:61-63 | The given type id and an empty RetrieveInfo |
| LoadElements.LoadElementsByUuid.GetDao | sernet.gs.service/src/sernet/verinice/service/commands/LoadElementsByUuid.java:106-115 | The DAO is chosen on first use and cached from then on |
| LoadElements.LoadElementsByUuid.Execute | sernet.gs.service/src/sernet/verinice/service/commands/LoadElementsByUuid.java:76-97 | The previous result is discarded; the elements are exactly the non-null lookups over the distinct uuids; missing ones are skipped |
| FileViewSorting.CompareStrings | sernet.gs.ui.rcp.main/src/sernet/gs/ui/rcp/main/bsi/views/FileView.java:844-852 | A null on either side ends in NullPointerException; otherwise the result is zero iff the strings are equal |
| FileViewSorting.CompareDates | sernet.gs.ui.rcp.main/src/sernet/gs/ui/rcp/main/bsi/views/FileView.java:847-849 | A null date fails; otherwise negative iff the first is earlier and positive iff it is later |
| FileViewSorting.SizeOf | sernet.gs.ui.rcp.main/src/sernet/gs/ui/rcp/main/bsi/views/FileView.java:854-855 | A missing size reads as 0; a stored size is read with parseInt, and a malformed one fails |
| FileViewSorting.CompareNullSafe | sernet.gs.ui.rcp.main/src/sernet/gs/ui/rcp/main/bsi/views/FileView.java:815-862 | Columns outside 0-6 compare equal; only the name, text, date, version and size columns can fail; the size result is -1, 0 or 1 |
| FileViewSorting.CompareEntries | sernet.gs.ui.rcp.main/src/sernet/gs/ui/rcp/main/bsi/views/FileView.java:796-807 | Before the flip, a null first entry against an attachment gives 1 and the reverse gives -1; two nulls fail in every sorting column |
| FileViewSorting.Flip | sernet.gs.ui.rcp.main/src/sernet/gs/ui/rcp/main/bsi/views/FileView.java:809-812 | Failures pass through; a value other than Integer.MIN_VALUE is negated |
| FileViewSorting.TableComparator.constructor | sernet.gs.ui.rcp.main/src/sernet/gs/ui/rcp/main/bsi/views/FileView.java:773-777 | A new comparator sorts by column 0, ascending |
| FileViewSorting.TableComparator.SetColumn | sernet.gs.ui.rcp.main/src/sernet/gs/ui/rcp/main/bsi/views/FileView.java:779-788 | The same column toggles the direction and keeps the column; any other column becomes the sort column, ascending |
| FileViewSorting.TableComparator.Compare | sernet.gs.ui.rcp.main/src/sernet/gs/ui/rcp/main/bsi/views/FileView.java:796-813 | Ascending gives the entry comparison; descending gives it flipped |
| FileViewSorting.ClickColumnTwice | sernet.gs.ui.rcp.main/src/sernet/gs/ui/rcp/main/bsi/views/FileView.java:779-788 | Two clicks on a new column end on that column in descending order |
| FileViewSorting.NullPlacement | sernet.gs.ui.rcp.main/src/sernet/gs/ui/rcp/main/bsi/views/FileView.java:800-812 | Ascending, null entries sort after attachments; descending, before them |
| FileViewSorting.MissingMimeTypeComparesEqual | sernet.gs.ui.rcp.main/src/sernet/gs/ui/rcp/main/bsi/views/FileView.java:818-842 | On both MIME columns, a missing MIME type on either side compares as 0, in both argument orders |
| FileViewSorting.SizeColumnLargestFirst | sernet.gs.ui.rcp.main/src/sernet/gs/ui/rcp/main/bsi/views/FileView.java:853-857 | On the size column the result is negative iff the first file is larger, and positive iff it is smaller |
| FileViewSorting.SizeColumnMalformed | sernet.gs.ui.rcp.main/src/sernet/gs/ui/rcp/main/bsi/views/FileView.java:854-855 | A malformed size on either side ends in NumberFormatException |
| FileViewSorting.MissingSizeIsZero | sernet.gs.ui.rcp.main/src/sernet/gs/ui/rcp/main/bsi/views/FileView.java:854-855 | An attachment without a size sorts like one of size "0" |
| FileViewSorting.SizeColumnTransitive | sernet.gs.ui.rcp.main/src/sernet/gs/ui/rcp/main/bsi/views/FileView.java:853-857 | The size order is transitive |
| FileViewSorting.CompareEntriesAntisymmetric | sernet.gs.ui.rcp.main/src/sernet/gs/ui/rcp/main/bsi/views/FileView.java:796-862 | Swapping two entries negates the ascending result in every column and keeps its failures, given an antisymmetric name comparator |
| FileViewSorting.DescendingFlipsAscending | sernet.gs.ui.rcp.main/src/sernet/gs/ui/rcp/main/bsi/views/FileView.java:809-812 | Descending, the result is the ascending one negated, for every int result except MIN_VALUE |
| IconSelect.GetRelativePath | sernet.gs.ui.rcp.main/src/sernet/verinice/rcp/IconSelectDialog.java:281-290 | From the first "tree-icons" on (the whole path when it does not occur), with each backslash turned into '/'; no backslash remains; never longer than the input; unchanged without "tree-icons" and backslashes |
| IconSelect.GetRelativePathIdempotent | sernet.gs.ui.rcp.main/src/sernet/verinice/rcp/IconSelectDialog.java:281-290 | Normalising a path twice gives the same result as once |
| IconSelect.Accept | sernet.gs.ui.rcp.main/src/sernet/verinice/rcp/IconSelectDialog.java:325-328 | A file is accepted iff its name has at least three characters and the last three, lowered, are "gif" or "png" |
| IconSelect.AcceptIgnoresCase | sernet.gs.ui.rcp.main/src/sernet/verinice/rcp/IconSelectDialog.java:325-328 | A file name and its lower-case form are accepted alike |
| IconSelect.AcceptLastThree | sernet.gs.ui.rcp.main/src/sernet/verinice/rcp/IconSelectDialog.java:325-328 | Only the last three characters decide acceptance; no dot is needed |
| IconSelect.AcceptedNames | sernet.gs.ui.rcp.main/src/sernet/verinice/rcp/IconSelectDialog.java:325-328 | "ICON.PNG", "folder.Gif" and "logopng" are accepted |
| IconSelect.RejectedNames | sernet.gs.ui.rcp.main/src/sernet/verinice/rcp/IconSelectDialog.java:325-328 | "icon.jpg", "gi" and "icon.png.txt" are rejected |
| IconSelect.SelectIcon | sernet.gs.ui.rcp.main/src/sernet/verinice/rcp/IconSelectDialog.java:254-263 | After an icon is chosen, something is selected, and the stored path has no backslash |
| IconSelect.IsSomethingSelected | sernet.gs.ui.rcp.main/src/sernet/verinice/rcp/IconSelectDialog.java:304-306 | Nothing is selected exactly when neither an icon was chosen nor the default icon asked for, whatever the box shows |
| IconSelect.InitiallyNothingSelected | sernet.gs.ui.rcp.main/src/sernet/verinice/rcp/IconSelectDialog.java:97-99 | A new dialog reports nothing selected |
| IconSelect.ClickDefaultCheckboxAsWritten | sernet.gs.ui.rcp.main/src/sernet/verinice/rcp/IconSelectDialog.java:192-197 | As written: a click toggles the box, but the flag becomes whether the box is enabled |
| IconSelect.UncheckedDefaultStillSelectedAsWritten | sernet.gs.ui.rcp.main/src/sernet/verinice/rcp/IconSelectDialog.java:192-197 | Checking and then clearing the box leaves the dialog reporting a selection with no icon chosen |
| IconSelect.ClickDefaultCheckbox | sernet.gs.ui.rcp.main/src/sernet/verinice/rcp/IconSelectDialog.java:192-197 | Corrected: the flag follows the box's new state |
| IconSelect.RunKeepsFlagWithBox | sernet.gs.ui.rcp.main/src/sernet/verinice/rcp/IconSelectDialog.java:304-306 | With the corrected listener, after any sequence of events, something is selected iff the box is checked or an icon was chosen |
| IconSelect.ChosenIconPersists | sernet.gs.ui.rcp.main/src/sernet/verinice/rcp/IconSelectDialog.java:304-306 | Once an icon is chosen, the dialog reports a selection after any further events |
| HuiTypeFactory.GetKey | sernet.hui.common/src/sernet/hui/common/connect/HUITypeFactory.java:317-319 | The key is the id, an underscore, then the attribute |
| HuiTypeFactory.GetKeyInjective | sernet.hui.common/src/sernet/hui/common/connect/HUITypeFactory.java:317-319 | For ids without underscores, equal keys mean equal ids and equal attributes |
| HuiTypeFactory.GetKeyAmbiguous | sernet.hui.common/src/sernet/hui/common/connect/HUITypeFactory.java:317-319 | With an underscore in an id, two different (id, attribute) pairs can share a key |
| HuiTypeFactory.TagsOf | sernet.hui.common/src/sernet/hui/common/connect/HUITypeFactory.java:410-412 | No tag contains a comma or whitespace, and every character of a tag comes from the input |
| HuiTypeFactory.SingleTag | sernet.hui.common/src/sernet/hui/common/connect/HUITypeFactory.java:410-412 | A string without commas or whitespace adds exactly itself |
| HuiTypeFactory.BlankTagsAddEmptyTag | sernet.hui.common/src/sernet/hui/common/connect/HUITypeFactory.java:407-412 | A whitespace-only string is not empty, so it adds the empty tag |
| HuiTypeFactory.HuiTypeFactory.constructor | sernet.hui.common/src/sernet/hui/common/connect/HUITypeFactory.java:80-87 | The parsed entity types and default messages as given, empty names included; the tag set starts empty and grows through AddToTagList |
| HuiTypeFactory.HuiTypeFactory.AddToTagList | sernet.hui.common/src/sernet/hui/common/connect/HUITypeFactory.java:406-413 | A null or empty string changes nothing; otherwise its tags are added; the set only grows, and no new tag contains whitespace |
| HuiTypeFactory.HuiTypeFactory.GetMessage | sernet.hui.common/src/sernet/hui/common/connect/HUITypeFactory.java:673-684 | A translation wins and stores nothing; otherwise the default-message rules apply, whatever defaults are stored |
| HuiTypeFactory.HuiTypeFactory.GetDefaultMessage | sernet.hui.common/src/sernet/hui/common/connect/HUITypeFactory.java:686-715 | Without a default: "" if emptyIfNotFound, else key + " (!)", nothing stored. With a non-empty default: it is stored under the key and returned, with " (SNCA.xml)" appended in debug mode |
| HuiTypeFactory.HuiTypeFactory.GetMessageOfKey | sernet.hui.common/src/sernet/hui/common/connect/HUITypeFactory.java:628-630 | The translation if any; else a non-empty default stored for the key (marked in debug mode); else, when no default or "" is stored, key + " (!)"; the stored defaults are unchanged |
| HuiTypeFactory.HuiTypeFactory.GetMessageWithDefault | sernet.hui.common/src/sernet/hui/common/connect/HUITypeFactory.java:647-649 | As getMessage with emptyIfNotFound false: a missing message is never "" |
| HuiTypeFactory.HuiTypeFactory.GetPossibleRelationsTo | sernet.hui.common/src/sernet/hui/common/connect/HUITypeFactory.java:578-591 | Exactly the union, over all entity types, of their possible relations to the target type |
| HuiTypeFactory.HuiTypeFactory.GetPropertyGroup | sernet.hui.common/src/sernet/hui/common/connect/HUITypeFactory.java:726-744 | None for an unknown entity type, a null group list, or no group holding the property; otherwise the first group in list order that holds it |
| JavaStrings.CompareToAntisymmetric | sernet.gs.ui.rcp.main/src/sernet/gs/ui/rcp/main/bsi/views/FileView.java:842 | String.compareTo with its arguments swapped gives the negated result |
| JavaStrings.JoinSplitAll | sernet.hui.common/src/sernet/hui/common/connect/HUITypeFactory.java:411 | Splitting at every separator and joining back gives the original string |
| JavaStrings.ParseIntOfNatToString | sernet.gs.ui.rcp.main/src/sernet/gs/ui/rcp/main/bsi/views/FileView.java:854 | parseInt reads back the decimal digits of every non-negative int |
| JavaStrings.ParseIntNegative | sernet.gs.ui.rcp.main/src/sernet/gs/ui/rcp/main/bsi/views/FileView.java:854 | parseInt reads back a minus sign followed by digits as the negative value, down to MIN_VALUE |

## Left out

- Hibernate proxies and persistent collections: only their "initialized" flag is modelled. The ORM itself is a foreign library.
- Retriever's lazily created static command service: the command service is the `Store` parameter. `VeriniceContext` lookup is outside the model.
- `RetrieveInfo` is not part of this model. `getPropertyInstance` and `getChildrenInstance` are taken to set one flag each, and `new RetrieveInfo()` requests nothing.
- Logging everywhere. The one exception is the debug flag that changes `getDefaultMessage`'s result, which is modelled.
- `GraphCommands.GraphCommand.Execute` and `InitGraph` require a graph service. In the source a missing one ends in NullPointerException, which the model does not represent.
- GetLoader returns the loaders as a value. In the source it hands out the command's own list, so a caller's later changes to it reach the next initGraph. This aliasing of the list is not modelled.
- SetLoader stores the caller's loaders as a value. In the source the command keeps the caller's list object, so the caller's later changes show up, and an unmodifiable list makes addLoader throw. This aliasing is not modelled.
- GetRelationIds returns the relation ids as a value. In the source it hands out the command's own list, shared as with getLoader. This aliasing is not modelled.
- SetRelationIds stores the relation ids as a value. In the source the command keeps the caller's list object, shared as with setLoader. This aliasing is not modelled.
- `GsmCleaner.Cleaner.CleanUpOrganization`, `DeleteScenarioAndControl` and `InitGraph` likewise require the services to be set. Unchecked runtime exceptions from the services are not modelled, only `CommandException`.
- The command service in the cleanup: whether a removal succeeds is a function of the number of commands issued so far and the element. Removal itself does not change the graph the cleanup already holds, as in the source.
- `GsmCleaner.Cleaner.RemoveEach` stands for each of the two `for` loops of `deleteScenarioAndControl`. It is a shared helper, not a method of the source.
- The graph store and repeated cleanup runs: the graph is whatever the graph service returns, so idempotence across runs is not stated.
- Type and relation id constants (`asset`, `incident_scenario`, `control`, `vulnerability` and the three `rel_...` ids) are the values of the verinice model classes. Those classes are not part of this model.
- Java `Set` iteration order: every set the graph hands out is a duplicate-free sequence in iteration order. Every ordering property holds for every such order.
- `LoadElementsByUuid` with a null uuid list ends in NullPointerException in the source; the model takes the list as given. The DAO factory is a key naming which DAO is used, and the DAO lookup is a function parameter.
- `FileViewSorting.CompareNullSafe`: `NumericStringComparator` is a parameter. The null attachments reaching `compareNullSafe` are modelled as a NullPointerException in every sorting column. A `ClassCastException` for entries that are not attachments is not modelled.
- The file view's MIME-to-icon map is a given map. Its stream-based initialisation is not modelled.
- JavaStrings.CompareTo compares Unicode scalar values and counts length in them. Java compares UTF-16 code units, so strings with characters above U+FFFF can order differently. This affects the MIME-icon, MIME-type, text and version columns of the file view.
- `JavaStrings.ToLowerCase` lowers only ASCII letters. Java's full Unicode case mapping is not modelled.
- `JavaStrings.ParseInt` accepts only ASCII digits. Java also accepts other Unicode decimal digits.
- `FileViewSorting.DescendingFlipsAscending` excludes MIN_VALUE, which Java's negation leaves unchanged. `FileViewSorting.Flip` models that case.
- `IconSelect.Accept` takes the file name. `Path.getFileName` and the directory scanning are I/O.
- The rest of `IconSelectDialog` is widget code: combos, the table and the thumbnail size.
- `HUITypeFactory` XML parsing, validation and rule loading are not modelled. The entity types and the parsed default messages are given to the constructor. A missing name attribute is stored as "", as the parser does. The `SNCAMessages` bundle is a function from key to optional translation.

## Findings

| source | as written | input that shows it | evidently intended | confidence | as-written member | corrected member |
|---|---|---|---|---|---|---|
| sernet.gs.service/src/sernet/gs/service/Retriever.java:111-121 | checkRetrieveLinks tests the links before its `element != null` guard, and areLinksInitizialized dereferences the element after `Hibernate.isInitialized(null)` returned true | `checkRetrieveLinks(null, false)` | a null element is returned unchanged with no fetch, as checkRetrieveParent does | not executed; high | Retrieval.CheckRetrieveLinksAsWritten | Retrieval.CheckRetrieveLinks |
| sernet.gs.ui.rcp.main/src/sernet/verinice/rcp/IconSelectDialog.java:192-197 | the default-icon flag is set to `defaultCheckbox.isEnabled()`, which is always true for this check box | check the "default icon" box, then clear it, without choosing an icon | the flag follows `getSelection()`, so clearing the box clears the flag | not executed; medium | IconSelect.UncheckedDefaultStillSelectedAsWritten | IconSelect.RunKeepsFlagWithBox |
