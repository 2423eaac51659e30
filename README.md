# EHS dashboard, 5 Whys and fishbone tools — a Dafny model

This project models the logic of an environment, health and safety (EHS)
repository made of three code bases:

- **The vanilla JavaScript EHS dashboard** (`js/`, `data/`). It covers the
  in-memory store of incidents, corrective actions, risk assessments,
  training records, work permits, inspections, checklists, compliance
  records, audits and contractors, with its listeners. It also covers the
  hash router, the form validator, the key/value model and the demo-data
  generator. Each list page is modelled too: badge colours, the records its
  forms submit, its sort order and its search and select filters.
- **The Angular 5 Whys application** (`5Whys-main/`). It covers the
  analysis service and its validation, the wizard, the modal, the
  analysis shell, the causal-chain view, the storage service with its
  24-hour draft expiry, the editable why-tree and the tree demo's counters.
- **The Angular fishbone editor** (`FishboneV2-main/`). It covers the
  diagram edits and their menus, the label arithmetic and the colour
  helpers. The older fishbone and 5 Whys components of the JavaScript
  dashboard (`js/components/`) are modelled as well.

JavaScript values are modelled in `JsValue`: undefined, null, booleans,
integer numbers with −Infinity, strings, dates as integer milliseconds,
arrays and objects. A record is a `map<string, Value>`, and object spread
is map union. String helpers (`trim`, `split`, `toLowerCase`, `includes`,
`parseInt`) live in `JsText`. Numbers are unbounded integers. Where the
source rounds, the model uses exact integer arithmetic, as listed below.

State the source changes in place is modelled imperatively:

- The store, the router, the key/value model, the wizard, the tree
  component and the editors are classes. Their methods state the new
  state in full.
- Row filters write an `array<bool>` of display flags.
- Sorts that the list pages apply to the array the store hands out (its
  own table) are store methods that reorder that table.

Pure computations are functions, and lemmas prove what the source
promises about them: round trips, invariants kept, counts that add up,
badge maps that agree with the dashboard buckets, and ids that stay
unique.

Modules, one per source component:

| module | models |
|---|---|
| `JsValue`, `JsText`, `StableSort`, `KeyedSeq` | JavaScript values, string built-ins, `Array.prototype.sort` (stable) and id-keyed lists |
| `EhsStore` | `js/store.js` |
| `HashRouter` | `js/router.js` |
| `FormValidation` | `validateForm`, `isValidEmail` and `getIcon` in `js/utils/util.js` |
| `KeyValueModel` | `js/models/model.js` |
| `ListView` | the row-filter and sort pattern the list pages share |
| `Dashboard`, `DashboardView` | `js/views/dashboard.js`, `js/views/DashboardView.js` |
| `IncidentsView`, `RisksView`, `ChecklistsView`, `ComplianceView`, `AuditsView`, `InspectionsView`, `TrainingView`, `ContractorsView`, `EwpView` | the list pages under `js/views/` |
| `DemoData` | `data/demo-data.js` |
| `FiveWhysModal`, `FishboneModal` | `js/components/five_whys.js`, `js/components/fishbone.js` |
| `FiveWhysModels`, `FiveWhysService`, `FiveWhysWizard`, `AnalysisShell`, `CausalChain`, `AnalysisStorage` | the 5 Whys models, service and components |
| `FiveWhysTree`, `FiveWhysTreeDemo` | the why-tree component and its demo |
| `FishboneEditor` | `FishboneV2-main/src/app/fishbone.component.ts` |

Where verifying a contract showed the code does something its authors
evidently did not intend, the operations follow the code as written, and
the evidently intended reading is a separately named member with its
property proved (see "## Findings").

## Model

| member | source | states |
|---|---|---|
| FishboneEditor.ColorAt | FishboneV2-main/src/app/fishbone.component.ts:946-957 | a bone's colour is always one of the ten palette colours |
| FishboneEditor.DefaultCategories | FishboneV2-main/src/app/fishbone.component.ts:1039-1056 | the six default bones Methods … Manpower, in order, with the given ids, no causes and the first six palette colours |
| FishboneEditor.WithCausesWellFormed | FishboneV2-main/src/app/fishbone.component.ts:1099-1111 | replacing one bone's causes by a list of distinct cause ids keeps every id in the diagram distinct |
| FishboneEditor.AcceptedIsTrimmed | FishboneV2-main/src/app/fishbone.component.ts:1058-1079 | a prompt answer is accepted only when non-blank, and then it is used trimmed; a cancelled prompt is refused |
| FishboneEditor.Editor.constructor | FishboneV2-main/src/app/fishbone.component.ts:1033-1056 | on init the problem is the sample statement and the bones are the six defaults; ids stay distinct |
| FishboneEditor.Editor.AddCategory | FishboneV2-main/src/app/fishbone.component.ts:1058-1072 | an accepted name appends a bone with no causes and the colour of its position; otherwise nothing changes |
| FishboneEditor.Editor.EditCategory | FishboneV2-main/src/app/fishbone.component.ts:1074-1079 | an accepted name replaces only that bone's title; otherwise nothing changes |
| FishboneEditor.Editor.DeleteCategory | FishboneV2-main/src/app/fishbone.component.ts:1081-1089 | after confirmation the first bone with that id is removed with its causes; otherwise nothing changes |
| FishboneEditor.Editor.AddCause | FishboneV2-main/src/app/fishbone.component.ts:1091-1097 | the dialog opens on that bone with empty text and priority Medium; the diagram is unchanged |
| FishboneEditor.Editor.SetNewCause | FishboneV2-main/src/app/fishbone.component.ts:629-656 | the dialog's text and priority bindings set only those two fields |
| FishboneEditor.Editor.ConfirmAddCause | FishboneV2-main/src/app/fishbone.component.ts:1099-1111 | a cause is added exactly when the text is non-blank and a bone is chosen; it has the trimmed text, the chosen priority and no sub-causes, goes at the end of that bone, and the dialog resets |
| FishboneEditor.Editor.CancelAddCause | FishboneV2-main/src/app/fishbone.component.ts:1113-1118 | the dialog closes and its fields reset; the diagram is unchanged |
| FishboneEditor.Editor.EditCause | FishboneV2-main/src/app/fishbone.component.ts:1120-1126 | an accepted text replaces only that cause's text |
| FishboneEditor.Editor.DeleteCause | FishboneV2-main/src/app/fishbone.component.ts:1128-1136 | after confirmation the first cause with that id is removed from its bone; nothing else changes |
| FishboneEditor.Editor.ResetDiagram | FishboneV2-main/src/app/fishbone.component.ts:1138-1142 | after confirmation the diagram is empty; otherwise unchanged |
| FishboneEditor.Editor.ToggleExpand | FishboneV2-main/src/app/fishbone.component.ts:1568-1576 | the cause's expansion flips and no other cause's does |
| FishboneEditor.Editor.ToggleCauseMenu | FishboneV2-main/src/app/fishbone.component.ts:2187-2191 | the menu closes when it was open on that cause, otherwise it opens there |
| FishboneEditor.Editor.CloseCauseMenu | FishboneV2-main/src/app/fishbone.component.ts:2192-2194 | no cause menu is open afterwards |
| FishboneEditor.Editor.ToggleExportMenu | FishboneV2-main/src/app/fishbone.component.ts:790-792 | the export menu's open flag flips |
| FishboneEditor.Editor.CloseExportMenu | FishboneV2-main/src/app/fishbone.component.ts:793-795 | the export menu is closed afterwards |
| FishboneEditor.Editor.OnDocClick | FishboneV2-main/src/app/fishbone.component.ts:2196-2200 | a document click closes both menus and changes nothing else |
| FishboneEditor.Editor.SetFocus | FishboneV2-main/src/app/fishbone.component.ts:831-834 | the focused bone becomes that bone |
| FishboneEditor.Editor.ClearFocus | FishboneV2-main/src/app/fishbone.component.ts:836-838 | no bone is focused afterwards |
| FishboneEditor.ToggleMenuTwice | FishboneV2-main/src/app/fishbone.component.ts:2187-2191 | toggling a cause's menu twice restores the menu state and the diagram |
| FishboneEditor.CharsPerLine | FishboneV2-main/src/app/fishbone.component.ts:1587-1589 | at least 10 characters per line, otherwise the number of 7-pixel characters that fit in the width |
| FishboneEditor.TotalLines | FishboneV2-main/src/app/fishbone.component.ts:1590-1593 | the smallest number of lines, at least one, that holds the text |
| FishboneEditor.NeedsClampIff | FishboneV2-main/src/app/fishbone.component.ts:1596-1599 | a label is clamped exactly when its text needs more than three lines |
| FishboneEditor.LabelHeight | FishboneV2-main/src/app/fishbone.component.ts:1600-1610 | 12 plus 14 pixels per shown line: 26 for one line, 54 from three lines up |
| FishboneEditor.LabelWidth | FishboneV2-main/src/app/fishbone.component.ts:1577-1586 | the measured width of that cause when known, otherwise the fixed 240 |
| FishboneEditor.CategoryLength | FishboneV2-main/src/app/fishbone.component.ts:1726-1731 | a bone is at least 80 long, exactly 80 for a missing index |
| FishboneEditor.CategoryLengthSteps | FishboneV2-main/src/app/fishbone.component.ts:1726-1731 | each cause after the first lengthens the bone by one 28-pixel step |
| FishboneEditor.SidesAlternate | FishboneV2-main/src/app/fishbone.component.ts:1973-1975 | the first bone is on top and neighbouring bones are on opposite sides |
| FishboneEditor.DropFirstHash | FishboneV2-main/src/app/fishbone.component.ts:2174 | a string without '#' is unchanged |
| FishboneEditor.HexToRgb | FishboneV2-main/src/app/fishbone.component.ts:2173-2181 | each colour component is a byte |
| FishboneEditor.ParseHexOfDigits | FishboneV2-main/src/app/fishbone.component.ts:2175 | base-16 parsing of plain hex digits gives their value |
| FishboneEditor.HexToRgbOfValue | FishboneV2-main/src/app/fishbone.component.ts:2173-2181 | the components are bits 16-23, 8-15 and 0-7 of the parsed value |
| FishboneEditor.HexToRgbOfBytes | FishboneV2-main/src/app/fishbone.component.ts:2173-2181 | a value packed from three bytes unpacks to those bytes |
| FishboneEditor.HexToRgbOfColor | FishboneV2-main/src/app/fishbone.component.ts:2168-2181 | a colour written '#rrggbb' yields its three two-digit values |
| FiveWhysTree.OrdinalSuffix | 5Whys-main/src/app/components/five-whys-tree/five-whys-tree.component.ts:703-716 | 'th' for 11-13 in the last two digits, otherwise st/nd/rd/th by the last digit; a negative number always gets 'th' |
| FiveWhysTree.OrdinalSuffixPeriodic | 5Whys-main/src/app/components/five-whys-tree/five-whys-tree.component.ts:703-716 | from 0 up, the suffix repeats every hundred |
| FiveWhysTree.OrdinalExamples | 5Whys-main/src/app/components/five-whys-tree/five-whys-tree.component.ts:703-716 | 1st, 2nd, 3rd, 4th, 11th, 12th, 13th, 21st, 112th and -1th |
| FiveWhysTree.PreOrder | 5Whys-main/src/app/components/five-whys-tree/five-whys-tree.component.ts:667-680 | the pre-order starts with the node itself |
| FiveWhysTree.Find | 5Whys-main/src/app/components/five-whys-tree/five-whys-tree.component.ts:667-680 | a node that is found carries the id searched for |
| FiveWhysTree.FindIsFirst | 5Whys-main/src/app/components/five-whys-tree/five-whys-tree.component.ts:667-680 | the search succeeds exactly when some node in pre-order has the id, and it returns the first such |
| FiveWhysTree.FindIffOccurs | 5Whys-main/src/app/components/five-whys-tree/five-whys-tree.component.ts:667-680 | the search succeeds exactly when the id occurs in the tree |
| FiveWhysTree.MapFirst | 5Whys-main/src/app/components/five-whys-tree/five-whys-tree.component.ts:663-680 | an edit of the node the search finds reports success exactly when the search succeeds; otherwise the tree is unchanged |
| FiveWhysTree.FindAfterMapFirst | 5Whys-main/src/app/components/five-whys-tree/five-whys-tree.component.ts:663-680 | after an edit that keeps ids, the search finds the edited node |
| FiveWhysTree.MapFirstOnlyTarget | 5Whys-main/src/app/components/five-whys-tree/five-whys-tree.component.ts:663-680 | only the found node matters: two edits that agree on it give the same tree |
| FiveWhysTree.MapFirstKeepsShape | 5Whys-main/src/app/components/five-whys-tree/five-whys-tree.component.ts:663-680 | an edit that keeps a node's id, level and parent keeps the tree well shaped |
| FiveWhysTree.MapFirstKeepsConsistent | 5Whys-main/src/app/components/five-whys-tree/five-whys-tree.component.ts:663-680 | an edit that keeps a node's level and question keeps every question consistent |
| FiveWhysTree.RemoveBelow | 5Whys-main/src/app/components/five-whys-tree/five-whys-tree.component.ts:597-612 | removal changes only the children, and nothing when nothing was removed |
| FiveWhysTree.RemoveBelowEffect | 5Whys-main/src/app/components/five-whys-tree/five-whys-tree.component.ts:597-612 | something is removed exactly when the id occurs below the node; then the tree shrinks and loses an occurrence of the id |
| FiveWhysTree.RemoveAllEffect | 5Whys-main/src/app/components/five-whys-tree/five-whys-tree.component.ts:607-611 | over a child list the first child that removes something stops the search, with the same effect |
| FiveWhysTree.RemoveUnique | 5Whys-main/src/app/components/five-whys-tree/five-whys-tree.component.ts:597-612 | an id that occurs once below the node is gone from the tree afterwards |
| FiveWhysTree.RemoveKeepsShape | 5Whys-main/src/app/components/five-whys-tree/five-whys-tree.component.ts:597-612 | removal keeps the tree well shaped and its questions consistent |
| FiveWhysTree.ClearMarks | 5Whys-main/src/app/components/five-whys-tree/five-whys-tree.component.ts:656-661 | clearing keeps every node's id, level, parent, question and answer |
| FiveWhysTree.ClearMarksAll | 5Whys-main/src/app/components/five-whys-tree/five-whys-tree.component.ts:660 | each child is cleared in turn |
| FiveWhysTree.ClearMarksEffect | 5Whys-main/src/app/components/five-whys-tree/five-whys-tree.component.ts:656-661 | no mark is left, the search finds the cleared version of the same node, and shape and questions are kept |
| FiveWhysTree.MarksAfterMapFirst | 5Whys-main/src/app/components/five-whys-tree/five-whys-tree.component.ts:642-654 | editing one node's mark changes the mark count by the difference at that node |
| FiveWhysTree.ToggleAsWrittenMarksTarget | 5Whys-main/src/app/components/five-whys-tree/five-whys-tree.component.ts:642-654 | as written, the toggled node ends up the one and only root cause, whatever its mark was |
| FiveWhysTree.ToggleAsWrittenCannotUnmark | 5Whys-main/src/app/components/five-whys-tree/five-whys-tree.component.ts:642-654 | as written, toggling a marked node leaves the tree unchanged: the mark cannot be cleared |
| FiveWhysTree.ToggleMarkFlips | 5Whys-main/src/app/components/five-whys-tree/five-whys-tree.component.ts:642-654 | the corrected toggle flips the node's mark and leaves no other node marked |
| FiveWhysTree.ToggleMarkTwice | 5Whys-main/src/app/components/five-whys-tree/five-whys-tree.component.ts:642-654 | toggling an unmarked node twice leaves no mark in the tree |
| FiveWhysTree.ToggleMarkKeepsInvariants | 5Whys-main/src/app/components/five-whys-tree/five-whys-tree.component.ts:642-654 | the corrected toggle keeps the tree well shaped and its questions consistent |
| FiveWhysTree.ToggleAsWrittenKeepsInvariants | 5Whys-main/src/app/components/five-whys-tree/five-whys-tree.component.ts:642-654 | the toggle as written keeps the tree well shaped and its questions consistent |
| FiveWhysTree.Requestioned | 5Whys-main/src/app/components/five-whys-tree/five-whys-tree.component.ts:682-690 | a re-asked node keeps id, level, parent and answer and carries the new question |
| FiveWhysTree.RequestionAll | 5Whys-main/src/app/components/five-whys-tree/five-whys-tree.component.ts:682-690 | each child is re-asked from its own level and the parent's answer |
| FiveWhysTree.RequestionedEffect | 5Whys-main/src/app/components/five-whys-tree/five-whys-tree.component.ts:682-690 | re-asking makes the subtree consistent and keeps it well shaped |
| FiveWhysTree.SaveAnswerKeepsInvariants | 5Whys-main/src/app/components/five-whys-tree/five-whys-tree.component.ts:620-635 | a saved answer keeps the questions consistent and the tree well shaped |
| FiveWhysTree.AddChildKeepsInvariants | 5Whys-main/src/app/components/five-whys-tree/five-whys-tree.component.ts:560-586 | a child added where the guard allows keeps the tree well shaped and its questions consistent |
| FiveWhysTree.MaxLevelIsLargest | 5Whys-main/src/app/components/five-whys-tree/five-whys-tree.component.ts:942-951 | the recursive maximum is the largest level in the tree, and some node has it |
| FiveWhysTree.TreeMaxLevel | 5Whys-main/src/app/components/five-whys-tree/five-whys-tree.component.ts:938-940 | a missing tree, or a maximum of 0, gives 1; otherwise the deepest level |
| FiveWhysTree.TreeMaxLevelPositive | 5Whys-main/src/app/components/five-whys-tree/five-whys-tree.component.ts:938-951 | for levels from 1 up the level count is the deepest level that occurs |
| FiveWhysTree.SubtreeWidth | 5Whys-main/src/app/components/five-whys-tree/five-whys-tree.component.ts:960-973 | a subtree is never narrower than one node, and a leaf is exactly one node wide |
| FiveWhysTree.WidthHoldsLeaves | 5Whys-main/src/app/components/five-whys-tree/five-whys-tree.component.ts:960-973 | a subtree is at least as wide as its leaves side by side with a gap between neighbours |
| FiveWhysTree.QuestionAgreesWithChain | 5Whys-main/src/app/components/five-whys-tree/five-whys-tree.component.ts:692-701 | the tree asks the same question the wizard asks when the answer one level up is the parent's answer |
| FiveWhysTree.DefaultTreeValid | 5Whys-main/src/app/components/five-whys-tree/five-whys-tree.component.ts:543-558 | the default tree is one level-1 node with the first question, and it is valid |
| FiveWhysTree.NodeById | 5Whys-main/src/app/components/five-whys-tree/five-whys-tree.component.ts:663-680 | a missing tree finds nothing; a found node carries the id |
| FiveWhysTree.TreeEditor.constructor | 5Whys-main/src/app/components/five-whys-tree/five-whys-tree.component.ts:534-558 | a missing input tree is replaced by the default one; nothing is being edited |
| FiveWhysTree.TreeEditor.CanAddChild | 5Whys-main/src/app/components/five-whys-tree/five-whys-tree.component.ts:999-1003 | read-only never allows a child; otherwise level 1 always does and deeper levels only without a child |
| FiveWhysTree.TreeEditor.AddChildNode | 5Whys-main/src/app/components/five-whys-tree/five-whys-tree.component.ts:560-586 | with room under an existing parent a child one level down, with the question for its level, is appended and put in edit; otherwise nothing changes; the tree stays valid |
| FiveWhysTree.TreeEditor.RemoveNode | 5Whys-main/src/app/components/five-whys-tree/five-whys-tree.component.ts:588-612 | a node is removed exactly when not read-only and the id occurs below the root; the tree then shrinks and stays valid |
| FiveWhysTree.TreeEditor.StartEdit | 5Whys-main/src/app/components/five-whys-tree/five-whys-tree.component.ts:614-618 | outside read-only mode the node and its answer go into edit |
| FiveWhysTree.TreeEditor.SaveAnswer | 5Whys-main/src/app/components/five-whys-tree/five-whys-tree.component.ts:620-635 | the trimmed answer is stored on the found node and the questions below re-asked, then editing ends; read-only changes nothing |
| FiveWhysTree.TreeEditor.CancelEdit | 5Whys-main/src/app/components/five-whys-tree/five-whys-tree.component.ts:637-640 | editing ends with an empty answer and the tree unchanged |
| FiveWhysTree.TreeEditor.ToggleRootCause | 5Whys-main/src/app/components/five-whys-tree/five-whys-tree.component.ts:642-661 | as written, the node becomes the one marked root cause (all marks are cleared before its flag is negated) and the tree stays well shaped; read-only or a missing node changes nothing |
| FiveWhysTreeDemo.SizeIsPreOrderLength | 5Whys-main/src/app/components/five-whys-tree/five-whys-tree-demo.component.ts:390-399 | the node count is the number of nodes in pre-order |
| FiveWhysTreeDemo.MaxDepthIsMaxLevel | 5Whys-main/src/app/components/five-whys-tree/five-whys-tree-demo.component.ts:401-410 | in a well-shaped tree the depth statistic equals the deepest level |
| FiveWhysTreeDemo.SampleNodeCount | 5Whys-main/src/app/components/five-whys-tree/five-whys-tree-demo.component.ts:297-357 | the sample tree has six nodes |
| FiveWhysTreeDemo.SampleRootCauseCount | 5Whys-main/src/app/components/five-whys-tree/five-whys-tree-demo.component.ts:297-357 | the sample tree has one root cause |
| FiveWhysTreeDemo.SampleBranchCount | 5Whys-main/src/app/components/five-whys-tree/five-whys-tree-demo.component.ts:297-357 | the sample tree branches once |
| FiveWhysTreeDemo.SampleDepth | 5Whys-main/src/app/components/five-whys-tree/five-whys-tree-demo.component.ts:297-357 | the sample tree is four levels deep |
| FiveWhysTreeDemo.SampleWellShaped | 5Whys-main/src/app/components/five-whys-tree/five-whys-tree-demo.component.ts:297-357 | the sample tree is well shaped |
| FiveWhysTreeDemo.InitialTreeValid | 5Whys-main/src/app/components/five-whys-tree/five-whys-tree-demo.component.ts:245-260 | the initial demo tree is one valid level-1 node |
| FiveWhysTreeDemo.Demo.constructor | 5Whys-main/src/app/components/five-whys-tree/five-whys-tree-demo.component.ts:241-260 | the demo starts with the initial tree, its problem statement and an empty log |
| FiveWhysTreeDemo.Logged | 5Whys-main/src/app/components/five-whys-tree/five-whys-tree-demo.component.ts:436-443 | the log after one event holds 1 to 20 events: the new one, then the older ones in order, cut to the newest nineteen |
| FiveWhysTreeDemo.Demo.AddEvent | 5Whys-main/src/app/components/five-whys-tree/five-whys-tree-demo.component.ts:436-443 | the new event goes first, followed by the newest nineteen earlier events in order, so the log holds 1 to 20 events; nothing else changes |
| FiveWhysTreeDemo.Demo.UpdateProblemStatement | 5Whys-main/src/app/components/five-whys-tree/five-whys-tree-demo.component.ts:262-268 | a present tree takes the typed problem statement; a missing tree stays missing |
| FiveWhysTreeDemo.Demo.OnDataChange | 5Whys-main/src/app/components/five-whys-tree/five-whys-tree-demo.component.ts:270-273 | the tree becomes the emitted one and the log gets the new event first, followed by the newest nineteen earlier events in order, "Tree data updated" |
| FiveWhysTreeDemo.Demo.OnNodeAdded | 5Whys-main/src/app/components/five-whys-tree/five-whys-tree-demo.component.ts:275-277 | the log gets the new event first, followed by the newest nineteen earlier events in order, "Added <ordinal> Why node"; the tree is unchanged |
| FiveWhysTreeDemo.Demo.OnNodeRemoved | 5Whys-main/src/app/components/five-whys-tree/five-whys-tree-demo.component.ts:279-281 | the log gets the new event first, followed by the newest nineteen earlier events in order, "Removed node <id>"; the tree is unchanged |
| FiveWhysTreeDemo.Demo.OnNodeUpdated | 5Whys-main/src/app/components/five-whys-tree/five-whys-tree-demo.component.ts:283-287 | the log gets the new event first, followed by the newest nineteen earlier events in order, "Updated <ordinal> Why" with the root-cause note when marked; the tree is unchanged |
| FiveWhysTreeDemo.Demo.ClearTree | 5Whys-main/src/app/components/five-whys-tree/five-whys-tree-demo.component.ts:289-295 | after confirmation the tree and the statement are gone, the counts are 0 and the log gets the new event first, followed by the newest nineteen earlier events in order, "Tree cleared"; otherwise nothing changes |
| FiveWhysTreeDemo.Demo.LoadSampleData | 5Whys-main/src/app/components/five-whys-tree/five-whys-tree-demo.component.ts:297-357 | the sample tree and its statement are loaded and the log gets the new event first, followed by the newest nineteen earlier events in order, "Sample data loaded" |
| FiveWhysTreeDemo.Demo.ExportData | 5Whys-main/src/app/components/five-whys-tree/five-whys-tree-demo.component.ts:359-372 | with a tree present "Data exported" heads the log, followed by the newest nineteen earlier events; without one nothing changes; the tree is never changed |
| FiveWhysService.ValidateStep | 5Whys-main/src/app/services/five-whys.service.ts:313-349 | at most one error: the problem step fails exactly when the trimmed statement is under 10 characters, the questioning and root-cause steps exactly when the trimmed text is empty, the later steps never |
| FiveWhysService.ProblemValidIffNoErrors | 5Whys-main/src/app/services/five-whys.service.ts:309-326 | the statement check and the problem step's validation agree |
| FiveWhysService.FindLevel | 5Whys-main/src/app/services/five-whys.service.ts:360-362 | the first pair at that level, or none when no pair has it |
| FiveWhysService.WhyQuestion | 5Whys-main/src/app/services/five-whys.service.ts:352-366 | level 1 asks the fixed question; deeper levels quote the previous level's answer when there is one, otherwise name the level |
| FiveWhysService.PutPair | 5Whys-main/src/app/services/five-whys.service.ts:129-135 | an existing pair at that level is replaced in place, otherwise the pair is appended |
| FiveWhysService.WithPairContents | 5Whys-main/src/app/services/five-whys.service.ts:124-138 | the new pair is present, no deeper level survives, every shallower pair is kept, and nothing else appears |
| FiveWhysService.PutPairKeepsDistinct | 5Whys-main/src/app/services/five-whys.service.ts:129-135 | replacing or appending keeps the levels distinct |
| FiveWhysService.UpToLevelContents | 5Whys-main/src/app/services/five-whys.service.ts:137 | keeps exactly the pairs no deeper than the level, drawn from the list |
| FiveWhysService.UpToLevelKeepsDistinct | 5Whys-main/src/app/services/five-whys.service.ts:137 | dropping the deeper levels keeps the levels distinct |
| FiveWhysService.WithPairKeepsDistinct | 5Whys-main/src/app/services/five-whys.service.ts:124-138 | an update keeps the levels distinct |
| FiveWhysService.OtherMode | 5Whys-main/src/app/services/five-whys.service.ts:242-250 | toggling always changes the mode |
| FiveWhysService.OtherModeTwice | 5Whys-main/src/app/services/five-whys.service.ts:242-250 | toggling twice restores the mode |
| FiveWhysService.Service.constructor | 5Whys-main/src/app/services/five-whys.service.ts:22-36 | the initial state: no analysis, a fresh wizard, create view, side panel, nothing loading or saving, no errors |
| FiveWhysService.Service.InitializeNewAnalysis | 5Whys-main/src/app/services/five-whys.service.ts:55-85 | a new empty draft analysis with the given parent, id and clock, a fresh wizard and create view |
| FiveWhysService.Service.LoadAnalysis | 5Whys-main/src/app/services/five-whys.service.ts:88-102 | the analysis is shown in view mode at the summary step, its level being its number of pairs |
| FiveWhysService.Service.UpdateProblemStatement | 5Whys-main/src/app/services/five-whys.service.ts:104-122 | the statement is stored, the wizard's validity and the errors follow the 10-character rule, and changes are marked unsaved |
| FiveWhysService.Service.UpdateCausalPair | 5Whys-main/src/app/services/five-whys.service.ts:124-156 | the pairs take the update, the current level becomes that level, the answer is validated, changes are marked unsaved |
| FiveWhysService.Service.SetRootCause | 5Whys-main/src/app/services/five-whys.service.ts:159-175 | the root cause is stored and validated, changes are marked unsaved |
| FiveWhysService.Service.AddActionItem | 5Whys-main/src/app/services/five-whys.service.ts:178-197 | the item with its new id is appended, changes are marked unsaved |
| FiveWhysService.Service.RemoveActionItem | 5Whys-main/src/app/services/five-whys.service.ts:200-215 | every item with that id is removed, changes are marked unsaved |
| FiveWhysService.Service.GoToStep | 5Whys-main/src/app/services/five-whys.service.ts:218-226 | only the current step changes |
| FiveWhysService.Service.GoToNextWhy | 5Whys-main/src/app/services/five-whys.service.ts:228-239 | only the current level changes, by one |
| FiveWhysService.Service.ToggleComponentMode | 5Whys-main/src/app/services/five-whys.service.ts:242-250 | only the component mode changes, to the other one |
| FiveWhysService.Service.StartSaving | 5Whys-main/src/app/services/five-whys.service.ts:262-268 | saving starts and nothing else changes |
| FiveWhysService.Service.SavingDone | 5Whys-main/src/app/services/five-whys.service.ts:270-281 | saving ends, the auto-save time is recorded and nothing is left unsaved |
| FiveWhysService.Service.SubmitAnalysis | 5Whys-main/src/app/services/five-whys.service.ts:290-306 | the analysis is submitted with the new time and nothing is left unsaved |
| FiveWhysService.ToggleTwice | 5Whys-main/src/app/services/five-whys.service.ts:242-250 | toggling the mode twice restores it |
| FiveWhysService.AddThenRemove | 5Whys-main/src/app/services/five-whys.service.ts:178-215 | adding an item under a fresh id and removing that id restores the items |
| FiveWhysService.HasDraft | 5Whys-main/src/app/services/five-whys.service.ts:394-397 | there is a draft exactly when the stored draft is still fresh and has more than one field |
| AnalysisStorage.AllAnalyses | 5Whys-main/src/app/services/storage.service.ts:14-22 | the stored list when the slot parses, otherwise an empty list |
| AnalysisStorage.Stamped | 5Whys-main/src/app/services/storage.service.ts:60-66 | the draft is the partial analysis with a lastSaved time added, every other field kept |
| AnalysisStorage.DraftAt | 5Whys-main/src/app/services/storage.service.ts:73-98 | a draft is returned exactly when one is stored and it is at most 24 hours old, and then unchanged |
| AnalysisStorage.DraftKeptForADay | 5Whys-main/src/app/services/storage.service.ts:80-93 | a draft saved up to a day ago is returned |
| AnalysisStorage.DraftDroppedAfterADay | 5Whys-main/src/app/services/storage.service.ts:80-90 | a draft saved more than a day ago is not returned |
| AnalysisStorage.StampedKeyCount | 5Whys-main/src/app/services/storage.service.ts:60-66 | a stamped draft has more than one key exactly when the partial analysis had a field other than lastSaved |
| AnalysisStorage.StorageService.constructor | 5Whys-main/src/app/services/storage.service.ts:11 | the service reads the two slots it is given |
| AnalysisStorage.StorageService.GetAllAnalyses | 5Whys-main/src/app/services/storage.service.ts:14-22 | the stored list, or empty when missing or unparsable |
| AnalysisStorage.StorageService.SaveAnalysis | 5Whys-main/src/app/services/storage.service.ts:25-40 | the analysis replaces the stored one with its id, or is appended; the draft is untouched |
| AnalysisStorage.StorageService.GetAnalysis | 5Whys-main/src/app/services/storage.service.ts:43-46 | the first stored analysis with that id, or none exactly when no analysis has it |
| AnalysisStorage.StorageService.DeleteAnalysis | 5Whys-main/src/app/services/storage.service.ts:49-57 | every analysis with that id is removed; the draft is untouched |
| AnalysisStorage.StorageService.SaveDraft | 5Whys-main/src/app/services/storage.service.ts:60-70 | the draft slot holds the stamped partial analysis |
| AnalysisStorage.StorageService.GetDraft | 5Whys-main/src/app/services/storage.service.ts:73-98 | the fresh draft is returned; an expired one is cleared and nothing returned |
| AnalysisStorage.StorageService.ClearDraft | 5Whys-main/src/app/services/storage.service.ts:101-107 | the draft slot is empty |
| AnalysisStorage.StorageService.ImportData | 5Whys-main/src/app/services/storage.service.ts:138-155 | a parsable backup succeeds and writes the analyses when present and the draft when present; otherwise nothing changes |
| AnalysisStorage.SaveThenGet | 5Whys-main/src/app/services/storage.service.ts:25-46 | an analysis just saved is found by its id |
| AnalysisStorage.DeleteThenGet | 5Whys-main/src/app/services/storage.service.ts:43-57 | an id just deleted is not found |
| FiveWhysModels.StepIndex | 5Whys-main/src/app/models/five-whys.models.ts:52-58 | each step has its position among the five steps, in order |
| FiveWhysModels.StepIndexInjective | 5Whys-main/src/app/models/five-whys.models.ts:52-58 | two steps have the same position exactly when they are the same step |
| FiveWhysWizard.NextAllowed | 5Whys-main/src/app/components/five-whys/five-whys-wizard.component.ts:682-702 | Next is enabled on the problem step for a statement of 10 trimmed characters, on questioning for a non-blank answer, on root cause for a validated non-blank cause, always on actions and never on the summary, and on the first three only without errors |
| FiveWhysWizard.NextAfterProblemEdit | 5Whys-main/src/app/components/five-whys/five-whys-wizard.component.ts:682-688 | after the statement is validated, Next is enabled exactly when the statement is long enough |
| FiveWhysWizard.NextAfterRootCauseEdit | 5Whys-main/src/app/components/five-whys/five-whys-wizard.component.ts:682-697 | after the root cause is validated, Next is enabled exactly when it is non-blank and confirmed |
| FiveWhysWizard.NextStep | 5Whys-main/src/app/components/five-whys/five-whys-wizard.component.ts:704-728 | Next moves one step on from problem, root cause and actions, and stays on questioning and summary |
| FiveWhysWizard.PreviousStep | 5Whys-main/src/app/components/five-whys/five-whys-wizard.component.ts:730-747 | Back moves one step back from every step but the first |
| FiveWhysWizard.Completed | 5Whys-main/src/app/components/five-whys/five-whys-wizard.component.ts:841-855 | a step is completed exactly when it comes before the current one |
| FiveWhysWizard.CompletedAfterBack | 5Whys-main/src/app/components/five-whys/five-whys-wizard.component.ts:730-747 | after Back, the completed steps are the earlier ones without the new current step |
| FiveWhysWizard.StepNumber | 5Whys-main/src/app/components/five-whys/five-whys-wizard.component.ts:857-861 | the progress number is the step's position plus one, 1 to 5 |
| FiveWhysWizard.Wizard.constructor | 5Whys-main/src/app/components/five-whys/five-whys-wizard.component.ts:616-626 | the form starts empty, unconfirmed, with the empty action draft |
| FiveWhysWizard.Wizard.CanGoBack | 5Whys-main/src/app/components/five-whys/five-whys-wizard.component.ts:677-680 | Back is possible exactly when it would change the step |
| FiveWhysWizard.Wizard.CanGoNext | 5Whys-main/src/app/components/five-whys/five-whys-wizard.component.ts:682-702 | Next's guard from the wizard's own fields and the service's errors |
| FiveWhysWizard.Wizard.CurrentWhyQuestion | 5Whys-main/src/app/components/five-whys/five-whys-wizard.component.ts:750-764 | the wizard asks the service's question for the current level |
| FiveWhysWizard.Wizard.GoNext | 5Whys-main/src/app/components/five-whys/five-whys-wizard.component.ts:704-728 | each step saves its own field and moves on; questioning stores the answer, goes one level deeper and clears the answer |
| FiveWhysWizard.Wizard.GoBack | 5Whys-main/src/app/components/five-whys/five-whys-wizard.component.ts:730-747 | the step goes back one and the analysis is unchanged |
| FiveWhysWizard.Wizard.FinalizeAsRootCause | 5Whys-main/src/app/components/five-whys/five-whys-wizard.component.ts:770-778 | the current answer is stored as a pair and becomes the root cause, and the wizard moves to root-cause confirmation |
| FiveWhysWizard.Wizard.AddAction | 5Whys-main/src/app/components/five-whys/five-whys-wizard.component.ts:780-800 | a non-blank description adds an action with the typed fields and the due date when given, then resets the draft; a blank one changes nothing |
| FiveWhysModal.DefaultData | js/components/five_whys.js:16-22 | the default analysis has an empty statement and root cause and three empty whys |
| FiveWhysModal.Padded | js/components/five_whys.js:9 | whys are padded with empty slots to at least three, and the existing ones are kept in order |
| FiveWhysModal.NonBlank | js/components/five_whys.js:207 | exactly the whys that are not blank after trimming are kept |
| FiveWhysModal.Check | js/components/five_whys.js:209-229 | the first missing part is reported, in order: problem statement, any why, root cause; otherwise the data is saved as it is |
| FiveWhysModal.SavedWhysNonBlank | js/components/five_whys.js:205-229 | saved data has at least one why and none of them is blank |
| FiveWhysModal.AllBlankNeverSaved | js/components/five_whys.js:205-217 | when every why is blank, nothing is saved |
| FiveWhysModal.Modal.constructor | js/components/five_whys.js:4-14 | the modal edits the existing data or the default, padded to three whys |
| FiveWhysModal.Modal.SetProblemStatement | js/components/five_whys.js:178 | the typed statement replaces the old one |
| FiveWhysModal.Modal.SetRootCause | js/components/five_whys.js:179 | the typed root cause replaces the old one |
| FiveWhysModal.Modal.AddWhy | js/components/five_whys.js:182-190 | an empty why is appended |
| FiveWhysModal.Modal.RemoveWhy | js/components/five_whys.js:192-199 | with one why or none a warning is shown and nothing changes; otherwise the why at that index is spliced out |
| FiveWhysModal.Modal.UpdateWhy | js/components/five_whys.js:201-203 | the why at that index takes the typed text |
| FiveWhysModal.Modal.Save | js/components/five_whys.js:205-229 | the blank whys are dropped, then the data is checked: saved, or the first missing part reported |
| CausalChain.Chain | 5Whys-main/src/app/components/five-whys/visual-causal-chain.component.ts:193-200 | no pairs give an empty chain; otherwise the pairs sorted by level, a permutation that keeps the order of pairs with equal level |
| CausalChain.ChainOfSorted | 5Whys-main/src/app/components/five-whys/visual-causal-chain.component.ts:193-200 | pairs already in level order are shown as they are |
| CausalChain.ChainOrdinal | 5Whys-main/src/app/components/five-whys/visual-causal-chain.component.ts:224-261 | up to 10 the fixed table, above 10 the generic rule, and nothing for a negative number |
| CausalChain.ChainOrdinalAgreesWithTree | 5Whys-main/src/app/components/five-whys/visual-causal-chain.component.ts:224-261 | from 1 up the chain's ordinals agree with the tree editor's |
| CausalChain.WhyBoxClasses | 5Whys-main/src/app/components/five-whys/visual-causal-chain.component.ts:212-222 | a box is highlighted exactly when its level is the current level |
| AnalysisShell.FormatTimeJustNow | 5Whys-main/src/app/components/five-whys/five-whys-analysis.component.ts:181-194 | under a minute reads "just now" |
| AnalysisShell.FormatTimeMinutes | 5Whys-main/src/app/components/five-whys/five-whys-analysis.component.ts:181-194 | m whole minutes, under an hour, read "m ago" |
| AnalysisShell.FormatTimeHours | 5Whys-main/src/app/components/five-whys/five-whys-analysis.component.ts:181-194 | h whole hours read "h ago" |
| AnalysisShell.Shell.constructor | 5Whys-main/src/app/components/five-whys/five-whys-analysis.component.ts:111-117 | the shell keeps its inputs |
| AnalysisShell.Shell.Init | 5Whys-main/src/app/components/five-whys/five-whys-analysis.component.ts:132-141 | a given analysis is loaded in view mode at the summary; otherwise a new draft for the parent object starts |
| AnalysisShell.Shell.OnClose | 5Whys-main/src/app/components/five-whys/five-whys-analysis.component.ts:158-167 | the shell closes exactly when nothing is unsaved or the user confirms |
| AnalysisShell.Shell.OnSubmit | 5Whys-main/src/app/components/five-whys/five-whys-analysis.component.ts:169-173 | the analysis is submitted and the emitted analysis is the submitted one |
| AnalysisShell.Shell.ToggleMode | 5Whys-main/src/app/components/five-whys/five-whys-analysis.component.ts:154-156 | the display mode switches to the other one and nothing else changes |
| FishboneModal.DefaultData | js/components/fishbone.js:29-41 | the default diagram reads "Problem Statement" and has six empty categories cat1..cat6 with the six standard titles in order |
| FishboneModal.DefaultIdsDistinct | js/components/fishbone.js:29-41 | the six default category ids are pairwise distinct |
| FishboneModal.FindCategory | js/components/fishbone.js:237 | finds the first category with the id, and reports none exactly when no category has it |
| FishboneModal.WithCause | js/components/fishbone.js:246-252 | a non-blank text is appended, trimmed, to the causes of the found category only; a blank text or an unknown category changes nothing |
| FishboneModal.OpacityIsLastEvent | js/components/fishbone.js:222-228 | the delete button is fully opaque exactly when the last hover event was an enter, and otherwise at 0.2 |
| FishboneModal.Modal.constructor | js/components/fishbone.js:18-27 | the modal starts with the existing diagram of the incident, or the default one, and no open cause input |
| FishboneModal.Modal.SetProblemStatement | js/components/fishbone.js:78-81 | typing into the problem field replaces the problem statement and nothing else |
| FishboneModal.Modal.Save | js/components/fishbone.js:87-93 | saving hands over the current diagram unchanged |
| FishboneModal.Modal.AddCategory | js/components/fishbone.js:95-118 | a non-blank name appends an empty category "cat-" plus the time with the trimmed name; a blank name changes nothing |
| FishboneModal.Modal.ResetDiagram | js/components/fishbone.js:120-126 | a confirmed reset restores the default diagram; a declined one changes nothing |
| FishboneModal.Modal.StartCause | js/components/fishbone.js:236-245 | opening the cause input for a known category attaches the blur handler; an unknown category opens nothing |
| FishboneModal.Modal.CauseBlur | js/components/fishbone.js:246-252 | a blur with the handler attached adds the typed cause; the input closes in every case |
| FishboneModal.Modal.CauseEnter | js/components/fishbone.js:253-258 | Enter detaches the blur handler and adds the typed cause once; the input closes |
| FishboneModal.Modal.CauseEscape | js/components/fishbone.js:259-261 | Escape closes the input without adding anything |
| FishboneModal.Modal.DeleteCause | js/components/fishbone.js:270-276 | an index outside the category's causes throws before the confirmation; a confirmed delete removes exactly that cause of that category |
| FishboneModal.EnterThenBlur | js/components/fishbone.js:253-258 | Enter followed by the input's blur adds the cause only once |
| FormValidation.CleanAt | js/utils/util.js:233 | a part matches the class of characters that are neither white space nor '@' exactly when each of its characters does |
| FormValidation.CleanConcat | js/utils/util.js:233 | two parts joined match that class exactly when both do |
| FormValidation.IsValidEmailMatchesPattern | js/utils/util.js:232-235 | the left-to-right scan accepts an address exactly when it is a non-empty local part, '@', a non-empty name, '.', and a non-empty ending, none holding white space or '@' |
| FormValidation.DomainSplits | js/utils/util.js:233 | a domain the scan accepts is two non-empty clean parts around a dot |
| FormValidation.DomainOfParts | js/utils/util.js:233 | two non-empty clean parts around a dot are a domain the scan accepts |
| FormValidation.ValidEmailSplits | js/utils/util.js:232-235 | an accepted address splits into the three parts of the pattern |
| FormValidation.ValidEmailAt | js/utils/util.js:232-235 | a clean non-empty local part, '@' and an accepted domain make an accepted address |
| FormValidation.PatternScans | js/utils/util.js:232-235 | every address of the pattern's shape is accepted by the scan |
| FormValidation.FieldErrorWhenBlank | js/utils/util.js:195-202 | a blank value is an error, "This field is required", exactly when the input is required |
| FormValidation.FieldErrorWhenFilled | js/utils/util.js:204-217 | a filled email input fails exactly when its trimmed value is not an address, a filled date input exactly when the date does not parse, each with its message; other filled inputs pass |
| FormValidation.ErrorsOfByName | js/utils/util.js:190-220 | a name is in the error map exactly when some input of that name failed, and it holds the message of the last such input |
| FormValidation.FailingFieldRecorded | js/utils/util.js:190-220 | every failing input leaves a message under its name |
| FormValidation.ValidIffNoErrors | js/utils/util.js:186-222 | the form is valid exactly when the error map is empty |
| FormValidation.ErrorsOfEmpty | js/utils/util.js:186-222 | a form whose inputs all pass has no errors |
| FormValidation.StepErrors | js/utils/util.js:190-220 | checking one more input adds its message under its name, or leaves the map as it was |
| FormValidation.StepValid | js/utils/util.js:190-220 | one more input keeps the form valid exactly when it passes |
| FormValidation.CheckField | js/utils/util.js:190-220 | one input's checks: it passes exactly when it has no error, and its message overwrites the name's entry |
| FormValidation.ValidateForm | js/utils/util.js:186-222 | the loop over the inputs returns the validity of all of them and the map of their last messages |
| FormValidation.GetIcon | js/utils/util.js:172-180 | success, error and warning have their glyphs; names of the object prototype find an inherited member; any other type falls back to the info glyph |
| KeyedSeq.Keys | 5Whys-main/src/app/services/storage.service.ts:28 | the id list has one entry per record, in order |
| KeyedSeq.Position | 5Whys-main/src/app/services/storage.service.ts:28 | `findIndex` by id gives the first record with that id, or -1 exactly when no record has it |
| KeyedSeq.RemoveFirst | 5Whys-main/src/app/components/five-whys-tree/five-whys-tree.component.ts:603-607 | `findIndex` and `splice` drop one record when the id is present and nothing otherwise |
| KeyedSeq.WithoutKey | 5Whys-main/src/app/services/storage.service.ts:52 | `filter` by id keeps no record with that id and never adds one |
| KeyedSeq.WithoutAbsentKey | 5Whys-main/src/app/services/storage.service.ts:52 | filtering out an id nobody has keeps the list as it was |
| KeyedSeq.DistinctTail | 5Whys-main/src/app/services/storage.service.ts:28 | the tail of a list with distinct ids has distinct ids, none equal to the head's |
| KeyedSeq.RemoveFirstCons | 5Whys-main/src/app/components/five-whys-tree/five-whys-tree.component.ts:603-607 | removal past a head of another id keeps that head first |
| KeyedSeq.RemoveFirstIsFilter | 5Whys-main/src/app/services/storage.service.ts:52 | with distinct ids, removing the first match and filtering every match agree |
| KeyedSeq.AppendFresh | 5Whys-main/src/app/services/storage.service.ts:33 | appending a record with a new id keeps the ids distinct |
| KeyedSeq.RemoveKeepsDistinct | 5Whys-main/src/app/components/five-whys-tree/five-whys-tree.component.ts:603-607 | removing a record keeps the ids distinct |
| KeyedSeq.ReplaceKeepsDistinct | 5Whys-main/src/app/services/storage.service.ts:31 | replacing a record by one with the same id keeps the ids distinct |
| KeyedSeq.Upsert | 5Whys-main/src/app/services/storage.service.ts:25-34 | a record whose id is present replaces the first record of that id; otherwise it is appended |
| KeyedSeq.UpsertShape | 5Whys-main/src/app/services/storage.service.ts:25-34 | the list keeps its length exactly when the id was present and grows by one exactly when it was not; records of other ids stay in place |
| KeyedSeq.PositionAfterUpsert | 5Whys-main/src/app/services/storage.service.ts:25-34 | after saving, looking the id up finds the saved record |
| KeyedSeq.UpsertKeepsDistinct | 5Whys-main/src/app/services/storage.service.ts:25-34 | saving keeps the ids distinct |
| KeyedSeq.WithoutKeyAppend | 5Whys-main/src/app/services/storage.service.ts:52 | filtering a list with one more record filters the list and keeps the last record unless it has the id |
| KeyedSeq.WithoutFreshAppended | 5Whys-main/src/app/services/storage.service.ts:52 | deleting a just-added record with a new id gives back the list before the add |
| KeyedSeq.PositionAfterWithout | 5Whys-main/src/app/services/storage.service.ts:52 | after a delete, the id is found nowhere |
| KeyedSeq.PositionConcat | 5Whys-main/src/app/services/storage.service.ts:28 | the first match in two joined lists is the first match of the first list, else of the second shifted by the first's length |
| KeyValueModel.FromObjectPrototype | js/models/model.js:2-8 | a key of `Object.prototype` finds that member, any other key finds `undefined` |
| KeyValueModel.Model.constructor | js/models/model.js:2-4 | a new model holds no keys of its own and inherits from `Object.prototype` |
| KeyValueModel.Model.Get | js/models/model.js:6-8 | an own key gives its value; any other key is looked up on the prototype: an assigned prototype object's keys, then `Object.prototype`'s members, else undefined; a null prototype gives undefined |
| KeyValueModel.Model.Set | js/models/model.js:10-12 | a key gets its own value and every other key reads as before, except that '__proto__' on an ordinary prototype runs the inherited setter: an object or null becomes the prototype, anything else is ignored |
| KeyValueModel.FreshModelInherits | js/models/model.js:2-8 | on a fresh model `get('toString')` finds the inherited method and an ordinary unknown key finds undefined |
| KeyValueModel.ProtoAssignment | js/models/model.js:10-12 | `set('__proto__', obj)` creates no key; the object's keys show through `get` |
| KeyValueModel.SetThenGet | js/models/model.js:6-12 | setting any key but '__proto__' and reading it back gives the value, even for an inherited method name |
| HashRouter.LookupRoute | js/router.js:9-21 | a found route is the one whose property name is the path; a name inherited from the object prototype finds a non-route member; anything else finds nothing |
| HashRouter.LookupName | js/router.js:9-21 | each route is found under its own name and under no other path |
| HashRouter.NameHasNoSlash | js/router.js:9-21 | each route name is one non-empty path piece |
| HashRouter.HashOf | js/router.js:34 | the hash after '#', or '/dashboard' when that is empty, is never empty |
| HashRouter.ParamsOf | js/router.js:36-41 | an id is passed exactly when the piece after the route name is a run of digits, and it is that piece |
| HashRouter.LeadingSlashGivesEmptyPath | js/router.js:34-35 | as written, every hash starting with '/' gives the empty path, which names no route |
| HashRouter.Pieces | js/router.js:35 | the split without the leading '/' has at least one piece |
| HashRouter.PiecesOfRouteHash | js/router.js:35-48 | with the leading '/' removed, `#/name` reaches the route called name, without an id |
| HashRouter.PiecesOfRouteIdHash | js/router.js:35-41 | with the leading '/' removed, `#/name/123` gives the route name and the id 123 |
| HashRouter.IncidentListUnreachableAsWritten | js/router.js:11 | as written, the incidents view receives the app-root element as its parameters, whose id 'app-root' parses to no number |
| HashRouter.ViewParams | js/router.js:55 | the corrected table hands every view the parsed parameters unchanged |
| HashRouter.ChartsNeverAsWritten | js/router.js:88-100 | as written, no path produced by a split on '/' equals '/dashboard', so the dashboard charts are never drawn |
| HashRouter.AllLinksActiveAsWritten | js/router.js:77-82 | as written, every `#/...` link and every '/...' route give the same empty path, so each link is marked active on every page |
| HashRouter.LinkActiveOnItsRoute | js/router.js:77-82 | with the leading '/' removed, a link is active exactly on its own route |
| HashRouter.ActiveLinks | js/router.js:77-82 | one active flag per link, set exactly when the link's base path is the current path |
| HashRouter.ActiveLinksAsWritten | js/router.js:77-82 | as written, one active flag per link, set exactly when the text after '#' up to the first '/' equals the route path |
| HashRouter.PageForAsWritten | js/router.js:35-70 | as written: a route named by the text before the first '/' shows its view under its title with the parameters the table passes and no charts, unless the view throws; an inherited member shows the error page; any other path shows "Not Found" with the links compared as written |
| HashRouter.SlashHashNotFoundAsWritten | js/router.js:34-82 | as written, every hash starting with '/' shows the Not Found page whatever the view does, and every `#/...` navigation link is marked active |
| HashRouter.BareNameHashShowsViewAsWritten | js/router.js:9-70 | as written, `#name` shows the named view under its title without charts; the incidents and risks views get the app-root element as parameters, the others no id |
| HashRouter.PageFor | js/router.js:47-71 | corrected composition: a route shows its view under its title, unless the view throws; an inherited member throws and shows the error page; an unknown path shows "Not Found" |
| HashRouter.RouteHashShowsItsView | js/router.js:32-100 | with the corrections, `#/name/123` shows the named view with id 123 under its title, and `#/name` shows it without an id and draws the charts exactly on the dashboard |
| HashRouter.Router.constructor | js/router.js:27 | the router starts on '/dashboard' with nothing shown |
| HashRouter.Router.Route | js/router.js:32-72 | a hash equal to the current route is skipped and changes nothing; any other becomes the current route and the page the router builds as written for it is shown |
| HashRouter.InitialLoadSkipped | js/router.js:27-44 | loading without a hash, or with '#/dashboard', renders nothing |
| HashRouter.RouteTwice | js/router.js:43-45 | routing the same hash twice in a row shows its page once |
| EhsStore.NewRecord | js/store.js:129 | the new record is the input with the numeric id and the stamped date set, and no other field added or lost |
| EhsStore.AppendFreshKeepsUnique | js/store.js:130 | appending a record whose id no stored record has keeps the ids distinct |
| EhsStore.FlooredAddKeepsUnique | js/store.js:128-130 | an id one above the largest id, with 0 as the floor, keeps the table's ids distinct |
| EhsStore.UnflooredAddTwiceOnEmpty | js/store.js:155-157 | as written, two inspections, contractors or incidents added to an empty table both get the id -Infinity, so the ids stop being distinct |
| EhsStore.MergeById | js/store.js:181-188 | the incident whose id is the parsed text gets the updates merged over it and every other stays; an unknown id changes nothing |
| EhsStore.MergeKeepsIdTable | js/store.js:181-188 | merging updates without a non-numeric id keeps every id numeric |
| EhsStore.MergeIdempotent | js/store.js:181-188 | merging the same updates twice is merging them once |
| EhsStore.ActionsOf | js/store.js:65 | the joined actions are exactly the corrective actions whose incidentId is strictly equal to the incident's id |
| EhsStore.ActionsOfAppend | js/store.js:65 | the joined actions keep the table order: an action appended to the table comes last among them when it belongs to the incident |
| EhsStore.ActionsOfMultiplicity | js/store.js:65 | each action of the incident appears among the joined actions as often as in the table, any other not at all |
| EhsStore.UserName | js/store.js:92-93 | the name of the first user whose id is strictly equal to the reference, or the fallback when none is |
| EhsStore.JoinNames | js/store.js:91-108 | each record gets the name of its referenced user, or 'Unknown User', and keeps its order |
| EhsStore.NamesOf | js/store.js:78-81 | each involved id becomes its user's name, or 'Unknown' |
| EhsStore.WithAssigneeNames | js/store.js:74-77 | each action gets the name of its assignee, or 'Unknown' |
| EhsStore.AsValues | js/store.js:66 | the joined rows are carried as objects, one per record |
| EhsStore.JoinActions | js/store.js:62-68 | each incident, in order, gets the array of its own corrective actions |
| EhsStore.NewInvestigation | js/store.js:219-231 | a missing investigation becomes an object that takes the data under the tool's name (other keys but the root cause kept), and five whys with a root cause copy it; the call throws exactly when the investigation is a primitive (nothing written) or a five-whys call has null or undefined data (the write stays) |
| EhsStore.MissingFiveWhysDataThrows | js/store.js:219-231 | five whys without data on an incident without an investigation leaves `{ fiveWhys: data }` behind and throws; on an array or date investigation it throws as well |
| EhsStore.RemoveFirst | js/store.js:48-53 | unsubscribing a subscribed listener leaves one registration fewer, and an unknown one leaves the list unchanged |
| EhsStore.RemoveFirstTakesOne | js/store.js:48-53 | the registrations left are the old ones less exactly one copy of the unsubscribed listener |
| EhsStore.RemoveFirstAt | js/store.js:49-51 | the removed registration is the first one |
| EhsStore.SubscribeUnsubscribe | js/store.js:45-53 | unsubscribing right after subscribing a new listener restores the list |
| EhsStore.Store.constructor | js/store.js:6-31 | the store starts from the initial tables with no listeners and no calls |
| EhsStore.Store.Subscribe | js/store.js:45-46 | the listener is registered last |
| EhsStore.Store.Unsubscribe | js/store.js:48-53 | the first registration of the listener is removed |
| EhsStore.Store.NotifyListeners | js/store.js:10-14 | each registered listener is called once, in registration order |
| EhsStore.Store.GetIncidents | js/store.js:62-68 | one record per incident, in order, each with its own corrective actions |
| EhsStore.Store.GetIncidentById | js/store.js:70-84 | null exactly when no incident has the parsed id; otherwise the incident with its actions' assignee names and its involved users' names, or a throw when its `involved` is not an array |
| EhsStore.Store.GetRiskAssessmentById | js/store.js:198-200 | a record exactly when one has the parsed id, and it is that stored record |
| EhsStore.Store.GetTrainingRecords | js/store.js:90-95 | each training record, in order, with its user's name or 'Unknown User' |
| EhsStore.Store.GetWorkPermits | js/store.js:97-102 | each permit, in order, with its applicant's name or 'Unknown User' |
| EhsStore.Store.GetInspections | js/store.js:104-109 | each inspection, in order, with its inspector's name or 'Unknown User' |
| EhsStore.Store.Append | js/store.js:127-208 | one new record at the end of the one table, under the id rule given, then one notification per listener |
| EhsStore.Store.AddChecklist | js/store.js:127-133 | the checklist is appended with the floored next id and the creation date, and every listener is notified |
| EhsStore.Store.AddAuditRecord | js/store.js:136-142 | the audit is appended with the floored next id and the creation date, and every listener is notified |
| EhsStore.Store.AddComplianceRecord | js/store.js:145-151 | the compliance record is appended with the floored next id and the creation date, and every listener is notified |
| EhsStore.Store.AddInspection | js/store.js:154-160 | the inspection is appended with the unfloored next id and today's date, and every listener is notified |
| EhsStore.Store.AddContractor | js/store.js:163-169 | the contractor is appended with the unfloored next id and the join date, and every listener is notified |
| EhsStore.Store.AddIncident | js/store.js:173-179 | the incident is appended with the unfloored next id and no date stamp, and every listener is notified |
| EhsStore.Store.AddCorrectiveAction | js/store.js:190-196 | the action is appended with the floored next id, and every listener is notified |
| EhsStore.Store.AddRiskAssessment | js/store.js:202-208 | the assessment is appended with the floored next id and the assessment date, and every listener is notified |
| EhsStore.Store.Merge | js/store.js:181-217 | the updates are merged into the record with the parsed id; listeners are notified only when one was found |
| EhsStore.Store.UpdateIncident | js/store.js:181-188 | the incident with the parsed id gets the updates; listeners are notified only when it exists |
| EhsStore.Store.UpdateRiskAssessment | js/store.js:210-217 | the assessment with the parsed id gets the updates; listeners are notified only when it exists |
| EhsStore.Store.UpdateIncidentInvestigation | js/store.js:219-235 | an unknown id changes nothing; otherwise the incident's investigation becomes what the code writes, and every listener is notified unless the call threw |
| EhsStore.Store.SortTableInPlace | js/store.js:86-88 | sorting the array a getter returns reorders the stored table itself: a stable sort by the key, a permutation of the table |
| JsValue.ParsedNumber | js/views/risks.js:293-296 | a form field becomes a number exactly when `parseInt` finds one in it |
| JsValue.NextIdFlooredFresh | js/store.js:128 | `Math.max(0, ...ids) + 1` is a finite id of at least 1 that no stored record has |
| JsValue.NextIdUnflooredCases | js/store.js:155 | `Math.max(...ids) + 1` is -Infinity on an empty table, and a fresh finite id when some id is finite |
| JsValue.NextIdRulesAgree | js/store.js:128-174 | the two id rules agree exactly when the largest id is a finite number of at least 0 |
| JsValue.FindFirst | js/store.js:71 | `find` gives the first matching record, or none exactly when no record matches |
| JsValue.Filter | js/store.js:65 | `filter` keeps exactly the matching records, and nothing else |
| JsValue.FilterConcat | js/store.js:65 | filtering a concatenation filters each part and keeps their order |
| JsValue.FilterMultiplicity | js/store.js:65 | each matching element occurs in the result as often as in the input, every other element not at all |
| JsValue.FindById | js/store.js:71 | an id text that does not parse finds nothing; a found record has the parsed id |
| JsText.ParseIntOfNatToString | js/store.js:71 | the decimal text of an id shown in a page parses back to that id |
| JsText.IncludesIffOccurs | js/views/incidents.js:442 | `includes` holds exactly when the term occurs at some position of the text |
| StableSort.SortBy | js/views/incidents.js:44 | the sorted list is a permutation of the list |
| StableSort.SortBySorted | js/views/incidents.js:44 | the sorted list is ordered by the key |
| StableSort.SortByStable | js/views/incidents.js:44 | records with equal keys keep their relative order, as `Array.prototype.sort` guarantees |
| StableSort.SortDescending | js/views/incidents.js:44 | sorting by the negated date puts the newest record first |
| JsText.JsRem | 5Whys-main/src/app/components/five-whys-tree/five-whys-tree.component.ts:704-706 | the `%` of the ordinal suffix: the Euclidean remainder for non-negative numbers, and a non-positive one for negative numbers |
| JsText.TrimStart | js/views/checklists.js:166 | the leading white space is removed, and only that |
| JsText.TrimEnd | js/views/checklists.js:166 | the trailing white space is removed, and only that |
| JsText.TrimSlice | js/views/checklists.js:166 | `trim` returns the middle of the text between blank ends, starting and ending with a non-space |
| JsText.TrimEmptyIffBlank | js/utils/util.js:195-198 | a value trims to empty exactly when it is all white space |
| JsText.TrimIdempotent | js/views/checklists.js:166 | trimming a trimmed text changes nothing |
| JsText.ToLower | js/views/incidents.js:442 | each ASCII capital letter A-Z is lowered and every other character kept |
| JsText.ToLowerIdempotent | js/views/incidents.js:435-442 | lowering a lowered text changes nothing |
| JsText.ToLowerKeepsIncludes | js/views/incidents.js:442 | a term found in a text is still found once both are lowered |
| JsText.LowerTextMissesCapitals | js/views/incidents.js:442-446 | a term with a capital letter is never found in a lowered text |
| JsText.Split | js/views/checklists.js:166 | at least one piece, none holding the separator, and joining them gives the text back |
| JsText.SplitJoin | js/views/checklists.js:166 | splitting pieces without the separator, once joined, gives the pieces back |
| JsText.NatToString | js/components/fishbone.js:109 | the decimal text of a number is all digits with no leading zero |
| JsText.IndexOf | js/store.js:49 | `indexOf` gives the first position of the element, or -1 exactly when it is absent |
| JsText.SpliceOne | js/store.js:51 | `splice(k, 1)` removes the element at k, counting a negative k from the end, and nothing when k is past the end |
| JsText.SpliceOneInRange | js/store.js:51 | removing an element in range shortens the list by one and loses exactly that element |
| IncidentsView.SeverityBadge | js/views/incidents.js:416-423 | each severity has its own colour, and First Aid, N/A and anything else are 'success' |
| IncidentsView.StatusBadge | js/views/incidents.js:425-431 | Closed is 'success', Under Investigation 'warning', anything else 'secondary' |
| IncidentsView.RecordableIffAlarmBadge | js/views/incidents.js:416-423 | the incidents the dashboard counts as recordable are exactly those with the danger or the warning badge |
| IncidentsView.NewIncident | js/views/incidents.js:319-344 | the new incident carries the form's fields, status 'Reported', nobody involved and the creation time, and so has no investigation |
| IncidentsView.EditPatch | js/views/incidents.js:394-413 | the edit form submits exactly title, date, status and description |
| IncidentsView.EditKeepsOtherFields | js/views/incidents.js:394-413 | an edit changes only those four fields of the edited incident and no other incident |
| IncidentsView.FilterIncidents | js/views/incidents.js:433-456 | a row is shown exactly when its lower-cased text holds the search term as the page builds it (the typed text as typed, otherwise the lower-cased input value) and its Status and Severity cells pass their selects |
| RisksView.ScoreRange | js/views/risks.js:231-260 | with every rating on the form's 1..5 scale the score is in 1..25, and raising a rating never lowers it |
| RisksView.ScoreClass | js/views/risks.js:422-426 | 15 and up is danger, 8 to 14 warning, anything lower success |
| RisksView.ScoreClassMatchesBucket | js/views/risks.js:422-426 | the list's colour and the dashboard's risk bucket agree |
| RisksView.StatusBadge | js/views/risks.js:428-435 | each control status has its own colour, anything else 'secondary' |
| RisksView.RatedFields | js/views/risks.js:293-309 | both scores are the products of their likelihood and severity |
| RisksView.NewRisk | js/views/risks.js:285-316 | the new assessment carries the rated fields, the category and the assessment time |
| RisksView.EditPatch | js/views/risks.js:390-420 | an edit recomputes both scores and keeps the category and the assessment date |
| RisksView.SortList | js/views/risks.js:36-39 | rendering the list sorts the store's own table, newest assessment first |
| RisksView.FilterRisks | js/views/risks.js:437-460 | a row is shown exactly when its lower-cased text holds the search term as the page builds it (the typed text as typed, otherwise the lower-cased input value) and its Category and Status cells pass their selects |
| ChecklistsView.StatusBadge | js/views/checklists.js:94-101 | Active, Draft and Archived have their colours, anything else 'info' |
| ChecklistsView.ItemsPreview | js/views/checklists.js:61-64 | the card shows the first three items and counts the rest in the "+ n more" line |
| ChecklistsView.TrimAll | js/views/checklists.js:166 | each line is trimmed, in order |
| ChecklistsView.ItemTexts | js/views/checklists.js:166 | every item text is non-empty, trimmed and free of line breaks, and there are at most as many as lines |
| ChecklistsView.TrimmedLines | js/views/checklists.js:166 | trimming non-blank lines gives item texts |
| JsValue.FilterKeepsAll | js/views/checklists.js:166 | filtering lines that are all non-blank keeps them all |
| ChecklistsView.ItemTextsRoundTrip | js/views/checklists.js:166 | typing item texts one per line gives back exactly those items, in order |
| ChecklistsView.BlankLineAddsNothing | js/views/checklists.js:166 | a blank line between items adds no item |
| ChecklistsView.ParseItems | js/views/checklists.js:166 | one unchecked item per item text, in order |
| ChecklistsView.NewChecklist | js/views/checklists.js:158-173 | the new checklist is 'Active' with the title, the category and the parsed items |
| ChecklistsView.CloneChecklist | js/views/checklists.js:219-233 | an unknown id changes nothing; otherwise the copy is added to the checklists through the store, with the next id, and every listener is notified |
| ChecklistsView.StoredCloneKeepsContent | js/views/checklists.js:219-233 | the stored clone is a draft titled "... (Copy)" with a fresh id, keeps every other field of the original, and the ids stay distinct |
| ChecklistsView.FilterChecklists | js/views/checklists.js:103-123 | a card is shown exactly when its lower-cased text holds the search term as the page builds it (the typed text as typed, otherwise the lower-cased input value) and its category line passes the select |
| ComplianceView.UserNameOfNumber | js/views/compliance.js:100-109 | ids 1 to 5 name the five listed users, in order, and any other id is 'Unknown User' |
| ComplianceView.IsOverdue | js/views/compliance.js:111-114 | a completed obligation is never overdue, and an overdue one has a due date |
| ComplianceView.OverdueAsTimePasses | js/views/compliance.js:111-114 | an obligation stays overdue as time passes, is not overdue before its due date, and is overdue after it unless completed |
| ComplianceView.StatusBadge | js/views/compliance.js:116-123 | Completed, Overdue and Due have their colours, anything else 'secondary' |
| ComplianceView.NewObligation | js/views/compliance.js:201-215 | the new obligation has the form's fields, the parsed assignee and status 'Due', shown with the warning badge |
| ComplianceView.AssigneeFromSelect | js/views/compliance.js:100-109 | an assignee chosen from the select's values 1 to 5 always has a name |
| ComplianceView.SortList | js/views/compliance.js:22-24 | rendering the list sorts the store's own table, earliest due date first |
| ComplianceView.FilterCompliance | js/views/compliance.js:125-148 | a row is shown exactly when its lower-cased text holds the search term as the page builds it (the typed text as typed, otherwise the lower-cased input value) and its Status and Jurisdiction cells pass their selects |
| AuditsView.AuditorNameOfNumber | js/views/audits.js:128-136 | ids 1 to 3 name the three listed auditors, in order, and any other id is 'Unknown Auditor' |
| AuditsView.StatusBadge | js/views/audits.js:138-145 | Completed, In Progress and Planned have their colours, anything else 'secondary' |
| AuditsView.TotalFindingsBounds | js/views/audits.js:103 | with numeric findings the total is a non-negative number and no audit's findings exceed it |
| AuditsView.TotalFindingsAppend | js/views/audits.js:103 | an audit without findings leaves the total alone, and otherwise adds its findings to it |
| AuditsView.Stats | js/views/audits.js:93-103 | the card counts all audits, the completed ones among them, and the sum of all findings |
| AuditsView.NewAudit | js/views/audits.js:209-222 | the new audit is 'Planned' with no findings and the parsed auditor |
| AuditsView.ScheduledAuditStats | js/views/audits.js:93-103 | scheduling an audit raises the total by one and leaves the completed count and the findings as they were |
| AuditsView.SortList | js/views/audits.js:25-26 | rendering the list sorts the store's own table, newest audit first |
| AuditsView.FilterAudits | js/views/audits.js:147-167 | a row is shown exactly when its lower-cased text holds the search term as the page builds it (the typed text as typed, otherwise the lower-cased input value) and its Status cell passes the select |
| InspectionsView.StatusBadge | js/views/inspections.js:92-99 | Completed, In Progress and Scheduled have their colours, anything else 'secondary' |
| InspectionsView.NewInspection | js/views/inspections.js:152-165 | the new inspection is 'In Progress' with no findings, the parsed inspector and no date of its own |
| InspectionsView.StartInspection | js/views/inspections.js:152-168 | starting an inspection appends it to the store's inspections with today's date and notifies every listener |
| InspectionsView.Listed | js/views/inspections.js:25-26 | the list holds the joined inspections, newest first |
| InspectionsView.StartedInspectionOnTop | js/views/inspections.js:25-26 | an inspection started now heads the list |
| InspectionsView.JoinKeepsDate | js/store.js:104-109 | adding the inspector's name keeps each inspection's date |
| InspectionsView.FindingsAgree | js/views/inspections.js:197-204 | the detail reports issues exactly when the walkways item is marked failed, and an inspection without findings shows neither |
| InspectionsView.FilterInspections | js/views/inspections.js:101-121 | a row is shown exactly when its lower-cased text holds the search term as the page builds it (the typed text as typed, otherwise the lower-cased input value) and its Status cell passes the select |
| TrainingView.Listed | js/views/training.js:22-23 | the list holds the joined training records, soonest expiry first |
| TrainingView.FirstWithStatus | js/views/training.js:95-100 | at most three records, all of the status, as many as there are up to three |
| TrainingView.NeedsAttention | js/views/training.js:95-104 | up to three expired and up to three expiring records, each of its status, and no record in both |
| TrainingView.ShowsEarliest | js/views/training.js:95-100 | on a list sorted by expiry, the records shown expire no later than any record of the status left out |
| TrainingView.AttentionShowsEarliest | js/views/training.js:22-104 | the card shows the expired and expiring records that expire first |
| TrainingView.StatusBadge | js/views/training.js:126-133 | Active, Expiring Soon and Expired have their colours, anything else 'secondary' |
| TrainingView.Pie | js/views/training.js:157-163 | the chart counts each status; the three counts add up to the records of a known status, and to all records when every status is known |
| TrainingView.FilterRecords | js/views/training.js:135-155 | a row is shown exactly when its lower-cased text holds the search term as the page builds it (the typed text as typed, otherwise the lower-cased input value) and its Status cell passes the select |
| ContractorsView.StatusBadge | js/views/contractors.js:101-108 | Approved, Pending and Suspended have their colours, anything else 'secondary' |
| ContractorsView.SafetyScore | js/views/contractors.js:110-115 | approved contractors score 95%, pending ones '-', every other 65%, each with its colour |
| ContractorsView.NewContractor | js/views/contractors.js:188-199 | the new contractor has exactly the form's name, trade, e-mail and status |
| ContractorsView.Register | js/views/contractors.js:188-203 | registering appends the contractor with the join date through the store and notifies every listener |
| ContractorsView.SortList | js/views/contractors.js:23-24 | rendering the list sorts the store's own table, newest contractor first |
| ContractorsView.RegisteredOnTop | js/views/contractors.js:23-24 | a contractor registered now heads the list with the submitted name, trade and status |
| ContractorsView.Contact | js/views/contractors.js:235 | a missing or empty e-mail shows 'N/A', any other one itself |
| ContractorsView.FilterContractors | js/views/contractors.js:117-140 | a row is shown exactly when its lower-cased text holds the search term as the page builds it (the typed text as typed, otherwise the lower-cased input value) and its Status and Trade cells pass their selects |
| EwpView.StatusBadge | js/views/ewp.js:102-110 | Active, Completed and Pending have their colours, anything else 'secondary' |
| EwpView.SupervisorStep | js/views/ewp.js:263-268 | the supervisor step reads approved, active and filled exactly for an active permit, the one with the success badge |
| EwpView.Listed | js/views/ewp.js:22-23 | the list holds the joined permits, latest start first |
| EwpView.ListedStatusCounts | js/views/ewp.js:22-23 | joining and sorting neither adds nor loses a permit of any status |
| EwpView.FilterPermits | js/views/ewp.js:112-135 | a row is shown exactly when its lower-cased text holds the search term as the page builds it (the typed text as typed, otherwise the lower-cased input value) and its Status and Type cells pass their selects |
| ListView.DetailRecord | js/views/contractors.js:209-212 | the modal opens the first record whose id is the clicked id, and shows nothing exactly when no record has that id (the same lookup as the audit, checklist, compliance, permit, inspection and certificate modals) |
| ListView.SearchTerm | js/views/incidents.js:435 | the corrected term is lower case, and is the typed text when there is one and the input's text otherwise |
| ListView.ShownOne | js/views/checklists.js:110-121 | a row passes one select exactly when its text holds the term and its cell matches the select |
| ListView.ShownTwo | js/views/incidents.js:441-454 | a row passes two selects exactly when its text holds the term and both cells match |
| ListView.ApplyFilter | js/views/incidents.js:441-454 | the loop over the rows sets each row's display exactly to whether it is shown |
| ListView.CapitalSearchHidesAllAsWritten | js/views/incidents.js:435 | as written, a typed term with a capital letter is not lower-cased, so it never occurs in the lower-cased row text and every row is hidden |
| ListView.SearchTermsAgreeWithoutCapitals | js/views/incidents.js:435 | the written and the corrected term agree whenever the typed text has no capital |
| ListView.SearchFindsShownText | js/views/incidents.js:433-456 | with the corrected term, typing any text the row shows keeps the row visible when its selects pass |
| ListView.ClearedFiltersShowAll | js/views/incidents.js:433-456 | with the search box and every select empty, every row is shown |
| ListView.NumberKeyOfDigit | js/views/compliance.js:100-109 | looking a number up in the directory object finds the key d exactly when the number is d |
| ListView.NewestFirst | js/views/incidents.js:44 | the sorted list is a permutation, newest first, and records of the same date keep their order |
| ListView.NewestFirstHead | js/views/incidents.js:44 | the first record is one of the list and none is newer |
| ListView.OldestFirst | js/views/compliance.js:24 | the sorted list is a permutation, oldest first, and records of the same date keep their order |
| ListView.FilterKeepsOrder | js/views/training.js:95-100 | filtering a sorted list keeps it sorted |
| ListView.CountSplit | js/views/dashboard.js:244-245 | the records that match and those that do not make up the whole list |
| ListView.CountConcat | js/views/dashboard.js:41-46 | counting over two joined lists adds the counts |
| ListView.CountPermutation | js/views/training.js:22-23 | sorting does not change how many records match |
| ListView.CountPointwise | js/store.js:91-109 | lists that match at the same positions have the same count |
| ListView.CountMonotone | js/views/dashboard.js:41-46 | a weaker condition counts at least as many records |
| ListView.CountAll | js/views/training.js:161-163 | when every record matches, the count is the length |
| ListView.CountNone | js/views/dashboard.js:43 | when no record matches, the count is 0 |
| ListView.LastN | js/views/DashboardView.js:27-31 | `slice(-n)` gives the last n elements, or all |
| ListView.FirstN | js/views/DashboardView.js:32 | `slice(0, n)` gives the first n elements, or all |
| ListView.Subscription.constructor | js/views/incidents.js:23 | a page starts without a listener |
| ListView.Subscription.Renew | js/views/incidents.js:22-31 | rendering again drops the page's old listener before adding the new one, so the page holds exactly one registration |
| Dashboard.Percent | js/views/dashboard.js:44 | the rounded percentage lies in 0..100, is within half a percent of the exact ratio, is 100 for all and 0 for none |
| Dashboard.PercentBounds | js/views/dashboard.js:44 | the same bounds, proved for the exact rounding |
| Dashboard.RoundedPercent | js/views/dashboard.js:44-46 | `Math.round(...) || 0`: an empty list or a rate that rounds to 0 gives the fallback, anything else the rounded percentage |
| Dashboard.FlatActions | js/views/dashboard.js:43 | `flatMap` gives a value exactly when some incident contributes it: an array's elements, any other value as one element; all-empty arrays give none |
| Dashboard.FlatActionsConcat | js/views/dashboard.js:43 | `flatMap` over two lists is the first list's actions followed by the second's |
| Dashboard.FlatActionsOfJoin | js/views/dashboard.js:43 | on the incidents `getIncidents` returns, `flatMap` gives each incident's own corrective actions in turn, in table order |
| Dashboard.OpenActionsOfJoin | js/views/dashboard.js:43 | the open-actions figure counts, over every incident, exactly its corrective actions whose status is not 'Completed' |
| Dashboard.CountOpenAsValues | js/views/dashboard.js:43 | an action record counts as open exactly when its status is not 'Completed' |
| Dashboard.OpenFlatten | js/views/dashboard.js:43 | the open actions of the joined arrays add up incident by incident |
| Dashboard.DashboardKpis | js/views/dashboard.js:40-46 | the recordable incidents, open actions, near misses and active permits are the counts of those records, each bounded by its list, recordable and other incidents making up all; each rate is 0 for an empty list and otherwise the rounded percentage of qualifying records |
| Dashboard.Bucket | js/views/dashboard.js:211-218 | a residual score of 15 and up is Critical, 8 to 14 High, 4 to 7 Medium, anything else Low |
| Dashboard.CountRiskBuckets | js/views/dashboard.js:209-218 | the loop counts each bucket, and the four counts add up to all risks |
| Dashboard.TrainingSplit | js/views/dashboard.js:242-245 | the active and the other records add up to all training records |
| Dashboard.CountDisjoint | js/views/dashboard.js:173-177 | counting two exclusive conditions adds up to counting either: the running total of the monthly counts, and the training pie's status counts |
| Dashboard.MonthlyIncidents | js/views/dashboard.js:162-179 | twelve consecutive months ending with the current one, each with its incident count; together they count the incidents of those months |
| DashboardView.ComplianceRateAsWritten | js/views/DashboardView.js:22-23 | as written the rate lies in 1..100: 100 for an empty table or a share not overdue that rounds to 0, otherwise that share as a rounded percentage |
| DashboardView.AllOverdueReadsFullAsWritten | js/views/DashboardView.js:22-23 | as written, a compliance table that is all overdue shows a rate of 100 |
| DashboardView.ComplianceRate | js/views/DashboardView.js:22-23 | the corrected rate lies in 0..100, is 100 with nothing overdue, 0 with everything overdue, and otherwise the share not overdue rounded |
| DashboardView.RatesAgreeAboveHalfPercent | js/views/DashboardView.js:23 | the written and the corrected rate agree whenever the share not overdue rounds above zero |
| DashboardView.Kpis | js/views/DashboardView.js:18-23 | total incidents, open risks, completed inspections and overdue obligations are the counts of those records, each bounded by its list; the compliance rate is the one computed as written, in 1..100, and 100 when every record is overdue |
| DashboardView.OpenRisksAreCritical | js/views/DashboardView.js:20 | the open risks are exactly the risks in the dashboard's Critical bucket |
| DashboardView.Activities | js/views/DashboardView.js:27-31 | one activity per record, carrying its kind, title, date and link |
| DashboardView.ActivityPool | js/views/DashboardView.js:26-31 | up to three incidents, two risks, two inspections, one audit and one training record |
| DashboardView.RecentActivity | js/views/DashboardView.js:32 | up to five activities from the pool, newest first, none older than an activity left out |
| StableSort.Newest | js/views/DashboardView.js:32 | sorting by a descending key and keeping the first n gives at most n entries of the input, from the largest key down, none smaller than an entry left out |
| StableSort.NewestPrefix | js/views/DashboardView.js:32 | a prefix of a list ordered from the largest key down holds entries of the input no smaller than any left out |
| DemoData.FloorIndexInRange | data/demo-data.js:4 | a draw in [0, 1) scaled by a positive length and floored is a valid index |
| DemoData.Pick | data/demo-data.js:4 | `getRandomItem` always returns an element of the array |
| DemoData.Managers | data/demo-data.js:11-18 | Bob Johnson is the only user with the Manager role |
| DemoData.Incidents | data/demo-data.js:25-43 | eighteen seeded incidents, one per index |
| DemoData.SeedIncidentShape | data/demo-data.js:25-43 | incident i has id i+1, an investigation exactly when its status is not 'Reported', with action i+1, a severity among the four, and one involved user |
| DemoData.SeedIncidentsShape | data/demo-data.js:25-43 | the seeded incidents have numeric, distinct ids 1..18, each has an investigation unless reported, and none has severity 'N/A' |
| DemoData.CorrectiveActions | data/demo-data.js:45-52 | eighteen seeded actions, one per index |
| DemoData.PickManager | data/demo-data.js:49 | picking among the managers always picks Bob Johnson, id 2 |
| DemoData.UserIds | data/demo-data.js:11-18 | the user at index k has id k+1 |
| DemoData.SeedActionShape | data/demo-data.js:45-52 | action i belongs to incident i+1, is assigned to user 2 and is due two weeks after now |
| DemoData.SeedActionsLink | data/demo-data.js:25-52 | every action is assigned to user 2, and action j is among incident k's actions exactly when j is k |
| DemoData.ScaleDraw | data/demo-data.js:57-58 | the corrected draw always gives a rating in 1..n |
| DemoData.ZeroDrawRaisesRiskAsWritten | data/demo-data.js:57-59 | as written, a likelihood draw of 0 gives likelihood 0, an initial score of 0 and a residual score above it |
| DemoData.ResidualWithinInitial | data/demo-data.js:59 | the halved likelihood, at least 1, never exceeds a likelihood in 1..5 |
| DemoData.RiskAssessments | data/demo-data.js:56-75 | twelve seeded risks, risk i drawn as written with `Math.ceil(Math.random() * 5)` ratings |
| DemoData.CeilDrawInRange | data/demo-data.js:57-58 | the written draw `Math.ceil(u * n)` lies in 0..n and is 0 exactly when u is 0 |
| DemoData.SeedRiskAsWrittenBounds | data/demo-data.js:56-75 | as written, a seeded risk's ratings lie in 0..5, and unless a draw was 0 the residual score lies in 1..25 and does not exceed the initial score |
| DemoData.SeedRisksAsWrittenBounds | data/demo-data.js:56-75 | the same bounds for each of the twelve seeded risks as written |
| DemoData.CorrectedRiskAssessments | data/demo-data.js:56-75 | corrected table: twelve risks, risk i drawn on the 1-to-5 scale |
| DemoData.SeedRisksResidual | data/demo-data.js:56-75 | with the corrected draw, every seeded risk has 1 <= residual score <= initial score <= 25 |
| DemoData.TrainingStatus | data/demo-data.js:83-86 | Expired exactly before today, Expiring Soon exactly within 30 days, Active otherwise |
| DemoData.TrainingRecords | data/demo-data.js:78-97 | three records per user, eighteen in all |
| DemoData.TrainingRecordShape | data/demo-data.js:79-95 | record i of a user has id userId*10+i, the user's id and a status of the three |
| DemoData.TrainingIdsDistinct | data/demo-data.js:89 | different users or indices give different record ids |
| DemoData.SeedTrainingShape | data/demo-data.js:78-97 | the seeded records have distinct ids and known statuses, so the training pie counts all eighteen |
| DemoData.WorkPermits | data/demo-data.js:99-108 | fifteen seeded permits, one per index |
| DemoData.SeedPermitsNeverPending | data/demo-data.js:99-108 | no seeded permit has the 'warning' badge of a pending permit, and each is valid until eight hours after now |
| DemoData.Inspections | data/demo-data.js:119-126 | twenty-two seeded walks, one per index |
| DemoData.SeedWalksHaveIssues | data/demo-data.js:119-126 | every seeded walk has 5 to 14 findings, so its walkways item is marked failed, and its inspector is user 2 |

## Left out

- DOM rendering, templates, event wiring, focus handling, the `Modal` and `Notification` helpers and `debounce` are left out: they are browser plumbing. The model keeps only the values the pages compute: badges, counts, submitted records, display flags and the active view.
- Chart.js drawing is left out. The model keeps the counts fed to the charts. The audit chart's figures are fixed mock data, so they are not modelled.
- `localStorage`, `JSON.stringify` and `JSON.parse` are left out. Stored slots are modelled as already-parsed values, and a parse failure as an explicit input.
- `Date.now()`, `new Date()`, `Math.random()`, `prompt` and `confirm` are parameters of the operations that use them. So are the locale calendar (`monthOf`, and the one-year step of the training seed) and the demo generator's `randomDate`.
- Dates are integer milliseconds. An invalid or missing date sorts and compares as 0. Month labels of the incident chart are left out; their count (12) is kept.
- JavaScript numbers are unbounded integers plus −Infinity; floating point, NaN arithmetic and string-to-number coercion of scores are not modelled.
- `parseInt` that yields NaN is stored as `undefined`.
- Loose equality (`==`) between a route parameter and an id is modelled as `parseInt` followed by strict equality. Other coercions are not modelled.
- `Math.round` of a percentage is computed exactly on integers (round half up); binary floating-point rounding is not modelled.
- Dashboard.FlatActions: an `actions` element that is `undefined` or `null` makes the source's `a.status` throw; the model counts it as open. Incidents from `getIncidents` never carry one (Dashboard.FlatActionsOfJoin).
- Dashboard.Percent: does not model floating-point error in `(part / total) * 100` before rounding.
- JsValue.ToText: dates and arrays turn into the empty string, because their text depends on the locale or on their elements.
- AuditsView.TotalFindings: a `findings` field that holds a string would concatenate in the source; the model reads any non-number as NaN.
- Sorts of copies (`[...list].sort(...)`) are values. Sorts of the array a store getter returns reorder the store's own table; no other aliasing is modelled.
- The checklist clone shares its `items` array with the original by reference. The model copies the value, so a later in-place edit of one is not seen in the other; no page edits items in place.
- Corrective actions in the demo data get `incidentId` i+1, as the code does; their text describes them as belonging to incident i.
- The incidents page subscribes again on every render and unsubscribes only the previous listener. Listeners of other pages stay subscribed after navigation; both are modelled, but no listener body beyond the re-render is.
- Detail modals are display only. The model keeps what decides their content: the lookup with its not-found return and the findings flag of an inspection. The audit, checklist, compliance, contractor, permit, inspection and certificate modals look their record up with `ListView.DetailRecord`; the incident and risk pages use the store getters `GetIncidentById` and `GetRiskAssessmentById`.
- JsText.ToLower: lowers only the ASCII letters A-Z. `toLowerCase` also lowers other capitals (`À`, `Σ`), which the model keeps as they are.
- JsText.ParseInt: reads decimal digits only. The source calls `parseInt(id)` without a radix, so a text starting with `0x` is read as hexadecimal there (`'0x1f'` gives 31) and as 0 here. Ids and route parameters are decimal digit runs, where the two agree.
- EhsStore.NewInvestigation: an array or date investigation takes the tool's entry as a property the model has no slot for, so it is left as it was; a tool named `__proto__` would replace the investigation's prototype instead of adding an entry, which is not modelled.
- KeyValueModel.Model.Get: the members of `Object.prototype` are only named (`Builtin`), not modelled as functions. A prototype object assigned through `__proto__` is one level deep: its own assigned prototype, and a `__proto__` data key inside it, are not followed.
- The compliance page's Mark Complete button has no handler, so the model has no operation for it.
- Training scheduling and permit submission only show a notice, so they change no modelled state.
- The seed tables written out as literals (contractors, checklists, compliance records, audits) are not modelled value by value. The generated tables (users, incidents, corrective actions, risks, training records, permits, inspections) are.
- The 5 Whys tree, the fishbone diagrams and the analyses are values. An edit rebuilds the path to the changed node, so sharing between two references to one node is not modelled.
- Causes of the JavaScript fishbone modal are modelled as their text, not as `{ text }` objects.
- Layout, pan and zoom, collision offsets and SVG/PNG/PDF/JPG export of the fishbone editor are left out: they are floating-point, trigonometry and canvas work. So are the node positions and connector paths of the 5 Whys tree; its integer subtree width is kept.
- The JSON download of the 5 Whys tree demo's export (blob, object URL, link click) is browser I/O; only its log event is modelled.
- Angular signals, effects and event emitters become plain state and return values. The auto-save interval and the simulated save delay are timers and are left out.
- The date check inside `validateForm` calls the browser's date parser; it is a predicate parameter.
- `js/auth.js`, `js/main.js`, `js/controllers/controller.js`, `js/views/configuration.js`, both `app.ts` shells and the 5 Whys summary component are not part of this model: they hold wiring or label tables only.
- The browser-automation scripts under `verification/` are not part of this model.

## Findings

| source | as written | input that shows it | evidently intended | confidence | as-written member | corrected member |
|---|---|---|---|---|---|---|
| js/router.js:35 | `hash.split('/')` on a hash that starts with '/' gives an empty first piece, so the route path is '' and no route is found | the hash `#/dashboard` gives path '' and the 404 "Not Found" page that `render404View` (js/router.js:283) draws | the path is the name after the leading '/' | not executed | HashRouter.SlashHashNotFoundAsWritten | HashRouter.RouteHashShowsItsView |
| js/router.js:11-12 | the incidents and risks entries call the one-argument views with the app-root element first, so the view takes the element for its parameters | `#incidents`, the one hash that reaches the incidents route as written, shows the detail view of id 'app-root', which is not found, so the list is never shown | the view receives the parsed parameters | not executed | HashRouter.IncidentListUnreachableAsWritten | HashRouter.RouteHashShowsItsView |
| js/router.js:89 | `initializeView` compares the split path with '/dashboard', which contains a '/' and so never matches | `#/dashboard` draws no chart | the charts are drawn on the dashboard route | not executed | HashRouter.ChartsNeverAsWritten | HashRouter.RouteHashShowsItsView |
| js/router.js:79 | link paths are cut at the first '/' of `#/name` without the '#', giving '' for every link, equal to the '' route path | on any route every navigation link is marked active | only the link of the current route is active | not executed | HashRouter.AllLinksActiveAsWritten | HashRouter.LinkActiveOnItsRoute |
| js/views/DashboardView.js:23 | `Math.round(...) \|\| 100` replaces a true 0 % by 100 | a table whose one record is overdue reads 100 % compliant | 100 only for an empty table, 0 when all are overdue | not executed | DashboardView.AllOverdueReadsFullAsWritten | DashboardView.ComplianceRate |
| 5Whys-main/src/app/components/five-whys-tree/five-whys-tree.component.ts:647-649 | every mark is cleared before the node's flag is negated, so the negation always sets it | toggling the node that is the root cause keeps it marked | toggling a marked node unmarks it | not executed | FiveWhysTree.ToggleAsWrittenCannotUnmark | FiveWhysTree.ToggleMarkFlips |
| js/views/incidents.js:435 | the term passed from the input event is used without lower-casing, while the row text is lower-cased | typing 'Fall' hides the row 'Fall from height' | the search ignores case on both paths | not executed | ListView.CapitalSearchHidesAllAsWritten | ListView.SearchFindsShownText |
| data/demo-data.js:57-58 | `Math.ceil(Math.random() * 5)` is 0 when `Math.random()` returns 0 | a likelihood draw of 0 gives initial score 0 and residual likelihood 1, so the residual score exceeds the initial one | ratings drawn from 1 to 5 | not executed | DemoData.ZeroDrawRaisesRiskAsWritten | DemoData.SeedRisksResidual |
