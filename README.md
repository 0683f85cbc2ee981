# PsychoPy forms, preferences dialog and code component — a Dafny model

This project models three parts of PsychoPy:

- **The questionnaire `Form` stimulus** (`psychopy/visual/form.py`):
  - how a list of item rows is imported: legacy column names are renamed, required headers are checked, missing fields get defaults, option text is split, response types are checked, and rows are optionally shuffled;
  - how the items are laid out as a vertical stack (base positions, edges, virtual height, border and scroll bar), and the width and position formulas an item must satisfy before it gets a response (rendered question width, response position, slider label wrap);
  - the scroll offset and the visibility test used when drawing;
  - how responses are harvested by `getData` and `formComplete`.
- **The preferences dialog** (`psychopy/app/preferencesDlg.py`):
  - the `PrefPropGrid` registry of pages, sections and typed properties, with `setPrefVal` and `getPrefVal`;
  - parsing of `option(...)` spec strings and their defaults;
  - normalisation of key bindings, including the macOS `Cmd+`/`Ctrl+` swap;
  - wrapping list values;
  - the `applyPrefs` loop that writes the grid back into the configuration.
- **The Builder `CodeComponent`** (`psychopy/experiment/components/code/__init__.py`):
  - its parameter table, parameter order and the trimming of inherited parameters;
  - its eleven `write*Code` emitters, which append a piece of code to a script buffer when that piece is not empty.

## Modelling choices

- **Values and strings.**
  - Python values are datatypes: `FormItems.Value` for form items and `PrefGrid.PyVal` for preferences.
  - Python dictionaries are `map`s.
  - Strings are `seq<char>`. `str.replace`, `split`, `join`, `strip`, `lower` and `capitalize` are written out as functions in `PyStrings`, together with their laws.
- **Mutable objects are classes.** The form, the property grid, the preferences dialog, the code component and the script buffer each change their fields in place, so each is a `class` whose methods state the whole new state.
- **Loops are methods.**
  - Every loop of the source is a method with a `for` or `while` loop.
  - Each method is proved equal to a specification function. Examples: `Imported`, `Layout`, `HarvestAll`, `ApplyAll`, `InitialParams`.
  - The lemmas carry the source's promises about those functions.
- **Error paths are `Result` values.** Every exception the source can raise on its inputs is a `Failure`:
  - `ValueError` for a missing header or an unknown type;
  - `TypeError`, `IndexError` and `AttributeError` on malformed values;
  - division by zero;
  - an invalid list preference.
- **Lengths are real numbers.** Positions and sizes are `real`; floating point rounding is not modelled.
- **Outside the model.** Widget construction, text measurement, the user's edits and Python's `eval`/`int` enter as parameters:
  - `measureQuestion` and `measureSlider` give the heights of the question and slider widgets;
  - `pick` gives the random draws of the shuffle;
  - `eval` and `toInt` stand for Python's `eval` and `int`;
  - `darwin` stands for `platform.system() == 'Darwin'`;
  - `Choices` holds the font, theme, audio-device and locale lists.
- **Code over documentation.** Where the documentation and the code disagree, the model follows the code:
  - `_checkSynonyms` overwrites a new-style key that is already present;
  - `_responseTextWrap` divides by the option count with no guard, so an empty option list fails;
  - `addPage` checks the new name against page indices, not page names;
  - The one exception is `getData`. The model follows its comment "maybe a heading or similar" and skips the `None` control of a heading or description. The code reads `.text` of that control and raises. `GetData` and `FormComplete` model the corrected loop. `FirstUnreadableAsWritten` and `LayoutUnreadableAsWritten` model the loop as written (see "## Findings").

## Model

| member | source | states |
|---|---|---|
| FormItems.LayoutFieldsKnown | psychopy/visual/form.py:26-38 | the known-field table lists `itemWidth`, `type`, `options`, `responseWidth` and `layout`, so an import fills in every field the layout reads |
| FormItems.CollectFieldNames | psychopy/visual/form.py:244-247 | the loop collects exactly the union of the rows' keys |
| FormItems.KeysInFieldNames | psychopy/visual/form.py:244-247 | each row's keys are among the collected field names |
| FormItems.RenameInEach | psychopy/visual/form.py:160-167 | one synonym pass renames the legacy key in every row (the new key takes the legacy value, the legacy key goes) and reports whether any row held the legacy key |
| FormItems.SwapNames | psychopy/visual/form.py:168-170 | the field-name set gains each replaced field and loses its legacy name; it requires every legacy name to be in the set, since `set.remove` raises otherwise |
| FormItems.SwapStep | psychopy/visual/form.py:168-170 | one add/remove step extends the swap from the fields done so far to one more field |
| FormItems.CheckSynonyms | psychopy/visual/form.py:157-173 | every row ends up as `RenameAll` of itself, and the name set is the renamed field names |
| FormItems.LaterLegacyUntouched | psychopy/visual/form.py:159-167 | renaming through the first p synonyms leaves every later legacy key as it was |
| FormItems.RenameEffect | psychopy/visual/form.py:163-166 | one rename drops the legacy key, moves its value to the new key if it was present, leaves the row unchanged if it was absent, and keeps every other key |
| FormItems.RenameAllSteps | psychopy/visual/form.py:45-49 | the full rename applies the three synonyms in table order: `questionText`, then `radio`, then `textBox` |
| FormItems.RenameAllEffect | psychopy/visual/form.py:157-167 | after renaming, no legacy key remains, each legacy value sits under its new name, and keys outside the synonym table are untouched |
| FormItems.RenameAllMoves | psychopy/visual/form.py:157-167 | no legacy key survives, and each legacy value is found under its new name |
| FormItems.RenameAllKeeps | psychopy/visual/form.py:157-167 | keys that are not synonyms, and new names whose legacy name is absent, keep their values |
| FormItems.RenameAllKeepsKey | psychopy/visual/form.py:157-167 | the same for one named key, under the conditions that spare it |
| FormItems.SynonymFacts | psychopy/visual/form.py:45-49 | the synonym table's pairs, keys and values |
| FormItems.RenamedItems | psychopy/visual/form.py:249 | the renamed row list has the same length, row by row |
| FormItems.RenamedFieldNamesAreKeys | psychopy/visual/form.py:244-250 | the name set after `_checkSynonyms` equals the union of the renamed rows' keys |
| FormItems.RenamedNameIsKey | psychopy/visual/form.py:244-250 | every name left in the set is a key of some renamed row |
| FormItems.KeyIsRenamedName | psychopy/visual/form.py:244-250 | every key of a renamed row is in the name set |
| FormItems.RenamedKeyOrigin | psychopy/visual/form.py:157-167 | a key of a renamed row is never a legacy name: it was either in the row already or is the new name of a legacy key that was |
| FormItems.RequiredFields | psychopy/visual/form.py:26-38 | exactly `itemText` and `type` are required, plus `index` when the shared table's `index` entry holds the sentinel `_REQUIRED` |
| FormItems.FirstMissingRequiredMeaning | psychopy/visual/form.py:175-182 | the check finds nothing iff every required header is present; otherwise it reports the first missing required header in table order |
| FormItems.RequiredHeaders | psychopy/visual/form.py:175-182 | for every table an import can produce, the check passes iff `itemText` and `type` are present, and a missing `itemText` is reported first |
| FormItems.CheckRequiredFields | psychopy/visual/form.py:175-182 | the loop returns the first missing required header |
| FormItems.ReplaceWithoutM | psychopy/visual/form.py:220 | `header.replace('item', 'question')` does nothing to a header without an `m` |
| FormItems.ReplaceItemPrefix | psychopy/visual/form.py:220 | it turns a leading `item` into `question` when the rest has no `m` |
| FormItems.LegacyHeaderIsReplace | psychopy/visual/form.py:220 | the old-header table equals `header.replace('item', 'question')` on every known header |
| FormItems.WithDefaults | psychopy/visual/form.py:215-231 | a filled row holds every known header and keeps all its own keys |
| FormItems.WithDefaultsEffect | psychopy/visual/form.py:209-231 | a present value (not missing, `None` or `''`) is kept; otherwise a present old-style header's value is copied; otherwise the default is used, with `index` defaulting to the row number; other keys are untouched |
| FormItems.IndexDefaultsToPosition | psychopy/visual/form.py:216 | a row without an index gets its own position |
| FormItems.FillThroughNext | psychopy/visual/form.py:217-231 | filling through one more header is one more fill step |
| FormItems.FieldOrderDistinct | psychopy/visual/form.py:26-38 | the known headers are distinct, and no header's old-style name comes before it |
| FormItems.FillThroughEffect | psychopy/visual/form.py:217-231 | after filling through a header list, each listed header holds its fill value and every other key is unchanged |
| FormItems.FillStepEffect | psychopy/visual/form.py:217-231 | one header step preserves that invariant |
| FormItems.AddDefaultItems | psychopy/visual/form.py:200-231 | every row i becomes `WithDefaults(row, i)`; the shared table's `index` is left at the last row number, or untouched when there are no rows |
| FormItems.InitialTableReachable | psychopy/visual/form.py:215-216 | the shared table's `index` is `None` or a row number initially and after one import from it |
| FormItems.TableAfterReachable | psychopy/visual/form.py:215-216 | an import from a table whose `index` is `None` or a row number leaves one of the same kind, so this holds before and after any sequence of imports |
| FormItems.StrValues | psychopy/visual/form.py:258 | string values, element by element |
| FormItems.SplitOptionsOf | psychopy/visual/form.py:254-261 | splitting options keeps every other field |
| FormItems.SplitOptionsKeepsText | psychopy/visual/form.py:257-258 | a string option becomes a non-empty list of strings whose comma join is the original text |
| FormItems.SplitOptions | psychopy/visual/form.py:254-261 | the loop applies `SplitOptionsOf` to every row |
| FormItems.TypeErrorOf | psychopy/visual/form.py:185-198 | a type is accepted iff it is a string among the seven known response types |
| FormItems.FirstTypeErrorFrom | psychopy/visual/form.py:263-264 | a type error is never a missing header |
| FormItems.FirstTypeErrorMeaning | psychopy/visual/form.py:263-264 | the scan finds nothing iff every type from row i on is known; otherwise it reports the first unknown one |
| FormItems.CheckTypes | psychopy/visual/form.py:263-264 | the loop returns the first type error |
| FormItems.Shuffle | psychopy/visual/form.py:266-268 | the shuffle returns a permutation of the rows, whatever the random draws |
| FormItems.Prepared | psychopy/visual/form.py:249-261 | each prepared row is the row renamed, filled with defaults and with its options split |
| FormItems.ImportItems | psychopy/visual/form.py:140-269 | without shuffling, the import equals `Imported`; with it, the import fails exactly when `Imported` does, with the same error, or else returns a permutation of its rows; the shared table is left as `TableAfter` says |
| FormItems.ImportMissingHeader | psychopy/visual/form.py:175-182 | an import fails with a missing header iff the renamed rows lack `itemText` or `type` |
| FormItems.ImportTypeCheck | psychopy/visual/form.py:263-264 | once the headers pass, the import succeeds iff every prepared row's type is a known string |
| FormItems.PreparedItem | psychopy/visual/form.py:249-261 | a prepared row holds every known header with its fill value, and its options are no longer a string |
| FormItems.PreparedItems | psychopy/visual/form.py:249-261 | the same for every row |
| FormItems.RejectedTypeFails | psychopy/visual/form.py:185-198 | one row with an unknown type makes the import fail |
| FormItems.RowWithoutTypeRejected | psychopy/visual/form.py:215-231 | a row with a missing or empty `type`, after renaming, gets the sentinel `_REQUIRED` as its type and makes the import fail |
| FormItems.LegacyTypeValueRejected | psychopy/visual/form.py:39-49 | the synonym table renames column names, not values, so a row whose type is `textBox` is rejected |
| FormItems.ImportedValue | psychopy/visual/form.py:140-269 | a successful unshuffled import returns the prepared rows, and the header check passed |
| FormItems.ImportedItems | psychopy/visual/form.py:140-269 | imported rows are one per input row and hold every known field with its fill value |
| FormItems.ImportedTypesKnown | psychopy/visual/form.py:263-264 | every imported row's type is a known response type |
| FormLayout.ImportedHaveFields | psychopy/visual/form.py:696-723 | the items a successful import returns hold every field the layout reads |
| FormLayout.Numeric | psychopy/visual/form.py:289-302 | a value can be multiplied by the form width iff it is a number (`bool` counts) |
| FormLayout.Elements | psychopy/visual/form.py:304-319 | `len` is defined on strings, lists and tuples |
| FormLayout.Reversed | psychopy/visual/form.py:454-510 | the reversed options have as many elements |
| FormLayout.ReversedAt | psychopy/visual/form.py:454-510 | element k of the reverse is element n-1-k |
| FormLayout.ReversedTwice | psychopy/visual/form.py:454-510 | reversing twice gives back the options |
| FormLayout.AllSizedMeaning | psychopy/visual/form.py:454-510 | the "all options have a length" test holds iff every option is a string, list or tuple |
| FormLayout.AllStringsMeaning | psychopy/visual/form.py:454-510 | the "all options are strings" test holds iff each element is a string |
| FormLayout.KindOfMeaning | psychopy/visual/form.py:402-407 | a type has a response kind iff its lower-case form is in the dispatch table, and the kind is that of the first matching entry |
| FormLayout.Form.constructor | psychopy/visual/form.py:90-129 | the fields as `__init__` sets them before `_doLayout`: scroll speed is 4 per item; the scroll bar is 0.016 wide; there are no base positions and no decorations; the virtual height is 0; the form is not complete |
| FormLayout.Form.ScrollSpeed | psychopy/visual/form.py:271-287 | the speed is the item count times the multiplier, and zero iff there are no items, for a positive multiplier |
| FormLayout.Form.ItemRenderedWidth | psychopy/visual/form.py:289-302 | defined iff the size is numeric; the rendered width plus two paddings is the size times the form width |
| FormLayout.Form.ResponseTextWrap | psychopy/visual/form.py:304-319 | defined iff the response width is numeric and the options have a non-zero length; the wrap times the option count is the response width times the form width |
| FormLayout.Form.LayoutEdges | psychopy/visual/form.py:702-704 | the edges span the form width, centred on its x position, with the top half a height above its y position |
| FormLayout.Form.QuestionPos | psychopy/visual/form.py:412-429 | the question's left edge, less half a padding, is the form's left edge; its centre lies half its height plus the padding below the current top |
| FormLayout.Form.ResponsePos | psychopy/visual/form.py:431-452 | defined iff the response width is numeric; the response shares the question's y, and it ends a scroll bar and a padding short of the right edge |
| FormLayout.Form.SliderOptionsEffect | psychopy/visual/form.py:454-510 | slider options are accepted iff the layout is `vert` or `horiz`, vertical options are a list, and the options are non-empty strings; vertical options are reversed and horizontal ones kept |
| FormLayout.Form.ItemResponseEffect | psychopy/visual/form.py:374-410 | an item gets a response iff its widths are numeric, its type has a kind, and a slider's options are valid; the item gains a readable `responseCtrl` (the `None` control exactly for headings and descriptions), the row records the measured heights and layout, and the other fields are kept |
| FormLayout.Form.SliderResponseKeeps | psychopy/visual/form.py:454-510 | a slider item gets an unrated slider control and keeps its other fields |
| FormLayout.Form.ItemResponseRow | psychopy/visual/form.py:409-410 | the row records the question height and whether the layout is vertical |
| FormLayout.Form.ItemResponseGeometry | psychopy/visual/form.py:289-410 | an item that gets a response has a defined rendered question width and response position, and a slider item a defined label wrap; an item for which the width or the position fails gets no response |
| FormLayout.Form.WithQuestion | psychopy/visual/form.py:321-372 | the item gains its question control at `QuestionPos` and keeps every other field |
| FormLayout.Form.Responses | psychopy/visual/form.py:707-714 | one response per item |
| FormLayout.Form.ResponsesAt | psychopy/visual/form.py:707-714 | response i is the response of item i with its own measured heights |
| FormLayout.Form.PlaceNext | psychopy/visual/form.py:707-714 | placing an item fails iff its response failed, and otherwise adds its question at the current top |
| FormLayout.Form.Placed | psychopy/visual/form.py:706-716 | placing n items gives n items and n rows |
| FormLayout.Form.PlacedStep | psychopy/visual/form.py:706-716 | placing one more item appends it, or stops with its error |
| FormLayout.Form.PlacedAt | psychopy/visual/form.py:706-716 | each placed item is its response plus the question control, and each row is its response's row |
| FormLayout.Form.PlacedFailurePersists | psychopy/visual/form.py:706-716 | once placing fails, placing more items keeps the same failure |
| FormLayout.Form.Layout | psychopy/visual/form.py:696-716 | a successful layout gives one item and one row per input item |
| FormLayout.Form.LayoutReadable | psychopy/visual/form.py:787-817 | every laid-out item's control can be harvested |
| FormLayout.Form.LayoutSingle | psychopy/visual/form.py:696-716 | one item with a valid response lays out |
| FormLayout.StackYs | psychopy/visual/form.py:673-694 | one base position per row |
| FormLayout.StackAppend | psychopy/visual/form.py:673-694 | stacking one more row appends its base position below the current depth |
| FormLayout.StackStep | psychopy/visual/form.py:673-694 | the same, with the virtual height moved down by the row's increment |
| FormLayout.StackBelowStart | psychopy/visual/form.py:673-694 | with a positive padding and non-negative heights, every base position is at least one padding below the start |
| FormLayout.StackDecreasing | psychopy/visual/form.py:673-694 | under the same conditions, base positions strictly decrease down the form |
| FormLayout.StackDepthBound | psychopy/visual/form.py:673-694 | the stack is at least one padding deep per row |
| FormLayout.Form.SetBaseYPosition | psychopy/visual/form.py:673-694 | appends the base position: the virtual height, less the taller of response and question, plus half the response height for a vertical row, less the padding. It lowers the virtual height by the taller height plus the padding, whatever the layout |
| FormLayout.Form.FractionVisible | psychopy/visual/form.py:725-731 | the visible fraction is undefined for an empty stack (division by zero), and it times the stack depth is the form height |
| FormLayout.Form.ScrollBarWhenTaller | psychopy/visual/form.py:725-731 | less than all is visible iff the stack is taller than the form |
| FormLayout.Form.SetDecorations | psychopy/visual/form.py:725-731 | the border is always added; the scroll bar is added when less than all is visible; the method fails iff the stack is empty |
| FormLayout.Form.LayOutItem | psychopy/visual/form.py:707-714 | one loop iteration: the item is replaced by its laid-out version, its base position appended and the virtual height lowered, or nothing changes on failure |
| FormLayout.Form.ProgressStart | psychopy/visual/form.py:706-716 | the layout loop's invariant holds before the loop |
| FormLayout.Form.ProgressStep | psychopy/visual/form.py:706-716 | one successful iteration keeps it |
| FormLayout.Form.ProgressStops | psychopy/visual/form.py:706-716 | a failing iteration is the layout's failure |
| FormLayout.Form.ProgressEnd | psychopy/visual/form.py:706-716 | at the end, the state is the layout's items, base positions and depth |
| FormLayout.Form.LayOutItems | psychopy/visual/form.py:706-716 | the loop leaves the items, base positions and virtual height that `Layout` and the stack give, or the first item's error |
| FormLayout.Form.DoLayout | psychopy/visual/form.py:696-723 | sets the edges and changes nothing outside the layout fields (the scroll speed and `complete` keep their values); on success leaves the laid-out items, the stacked base positions, the marker at 1 and the decorations; fails with the first item's error or for an empty stack |
| FormLayout.Form.ScrollOffset | psychopy/visual/form.py:657-671 | undefined with no items; 0 with the marker at its start or a stack within one height; otherwise linear in the marker, down to the lowest position plus the height less the padding |
| FormLayout.Form.InRange | psychopy/visual/form.py:733-748 | true iff the position lies strictly within one form height of the centre |
| FormLayout.Form.ElementY | psychopy/visual/form.py:754-771 | an item is drawn at half a height plus its base position less the scroll offset |
| FormLayout.Form.DrawnAtStart | psychopy/visual/form.py:733-771 | with the marker at its start, an item is drawn iff its base position lies between 1.5 heights below and half a height above the centre |
| FormLayout.Harvest | psychopy/visual/form.py:799-815 | an item with a real control is harvested as the code does it |
| FormLayout.HarvestEffect | psychopy/visual/form.py:799-815 | harvesting sets `response` and `rt` and keeps every other field, leaves an item without a control unchanged, and is idempotent |
| FormLayout.ReadableCtrlHarvested | psychopy/visual/form.py:799-815 | a readable control can be harvested, and the code as written fails exactly on the `None` control |
| FormLayout.CountUnansweredZero | psychopy/visual/form.py:808-816 | the unanswered count is zero iff no item's response is `None` or `''` |
| FormLayout.FirstUnreadable | psychopy/visual/form.py:799-815 | the first item that cannot be harvested lies in range |
| FormLayout.FirstUnreadableMeaning | psychopy/visual/form.py:799-815 | it is the first item from i on that cannot be harvested, and there is none iff all can be |
| FormLayout.HarvestAll | psychopy/visual/form.py:799-815 | one harvested item per item |
| FormLayout.HarvestAllAt | psychopy/visual/form.py:799-815 | harvested item m is item m harvested |
| FormLayout.HarvestStep | psychopy/visual/form.py:799-815 | harvesting one more item appends it and adds one to the count when it is unanswered |
| FormLayout.HarvestAllIdempotent | psychopy/visual/form.py:787-817 | calling `getData` twice gives what a single call gives |
| FormLayout.Form.CollectResponse | psychopy/visual/form.py:801-815 | one item's harvest, and whether it is unanswered |
| FormLayout.Form.GetData | psychopy/visual/form.py:787-817 | the corrected loop (skips the `None` control): with every item readable, the items are harvested and returned, and `complete` holds iff none is unanswered; otherwise the first unreadable item raises, the items before it are already harvested, and `complete` is unchanged |
| FormLayout.Form.FormComplete | psychopy/visual/form.py:819-828 | runs the corrected `getData` loop (skips the `None` control) and returns `complete`, with the same effects and the same error |
| FormLayout.Form.NoResponseUnreadableAsWritten | psychopy/visual/form.py:799-807 | as written, `getData` fails on every laid-out heading or description |
| FormLayout.Form.HeadingFormUnreadableAsWritten | psychopy/visual/form.py:799-807 | a one-heading form lays out, `getData` as written fails on it, and the corrected harvest accepts it |
| FormLayout.FirstUnreadableAsWritten | psychopy/visual/form.py:799-815 | where the `getData` loop as written stops: the first item whose control it cannot read, and none exactly when it reads every item |
| FormLayout.Form.LayoutUnreadableAsWritten | psychopy/visual/form.py:799-815 | on a laid-out form, the loop as written stops at the first heading or description, and reads the whole form exactly when it has neither |
| PrefGrid.PageKeys | psychopy/app/preferencesDlg.py:223 | the keys of `pages` are exactly the page indices |
| PrefGrid.PageNameNeverAKey | psychopy/app/preferencesDlg.py:220-236 | a page name is never one of those keys, so the duplicate check never fires |
| PrefGrid.PrefPropGrid.constructor | psychopy/app/preferencesDlg.py:200-209 | an empty registry: no sections, pages, names or help texts, and index 0 |
| PrefGrid.PrefPropGrid.AddPage | psychopy/app/preferencesDlg.py:220-240 | as written: fails iff the name is a page index (never); otherwise creates the missing sections as empty dicts, stores the page under the current index, maps the name to it and increments the index; the new index was free, and every earlier page is kept |
| PrefGrid.PrefPropGrid.AddPageChecked | psychopy/app/preferencesDlg.py:220-240 | the same, failing with "Page already exists" exactly when the name was already added; on success the new index was free and every earlier page is kept |
| PrefGrid.WithSectionsEffect | psychopy/app/preferencesDlg.py:226-228 | the listed sections are added as empty dicts; existing sections are kept |
| PrefGrid.Opened | psychopy/app/preferencesDlg.py:255-256 | a missing section is created with its initial value; an existing one is left as it is |
| PrefGrid.UpdatedEffect | psychopy/app/preferencesDlg.py:268-270 | `.update` on a list section fails (`AttributeError`); on a dict it stores the property under its name and keeps everything else |
| PrefGrid.PrefPropGrid.AddItem | psychopy/app/preferencesDlg.py:242-350 | the shared body of the item adders: open the section, store the property, record the help text, or fail leaving only the opened section |
| PrefGrid.PrefPropGrid.AddStringItem | psychopy/app/preferencesDlg.py:242-271 | adds a string property to a dict section |
| PrefGrid.PrefPropGrid.AddStringArrayItem | psychopy/app/preferencesDlg.py:273-283 | adds an array-of-strings property holding the values as a list |
| PrefGrid.PrefPropGrid.AddBoolItem | psychopy/app/preferencesDlg.py:285-293 | adds a boolean property |
| PrefGrid.PrefPropGrid.AddFileItem | psychopy/app/preferencesDlg.py:295-303 | as written: a new section starts as a list, so the update then fails |
| PrefGrid.FileItemOnNewSectionFails | psychopy/app/preferencesDlg.py:295-303 | adding a file item to a section that does not exist yet always fails |
| PrefGrid.PrefPropGrid.AddFileItemFixed | psychopy/app/preferencesDlg.py:295-303 | the same with the new section started as a dict, as the other adders do |
| PrefGrid.FileItemWithDictSection | psychopy/app/preferencesDlg.py:295-303 | with that fix, adding a file item to a new or dict section succeeds and stores it |
| PrefGrid.PrefPropGrid.AddDirItem | psychopy/app/preferencesDlg.py:305-313 | adds a directory property |
| PrefGrid.PrefPropGrid.AddIntegerItem | psychopy/app/preferencesDlg.py:315-339 | adds an integer property |
| PrefGrid.PrefPropGrid.AddEnumItem | psychopy/app/preferencesDlg.py:341-350 | adds an enumeration property with its labels and values |
| PrefGrid.StrList | psychopy/app/preferencesDlg.py:273-283 | the list of the given strings, element by element |
| PrefGrid.PrefVal | psychopy/app/preferencesDlg.py:386-391 | `None` for a missing section or name, the property's value when present, and a failure on a list section |
| PrefGrid.WithPrefVal | psychopy/app/preferencesDlg.py:378-384 | fails on a list section; leaves the grid alone (no write) iff the section or name is missing |
| PrefGrid.SetThenGet | psychopy/app/preferencesDlg.py:378-391 | after a write, reading the same preference gives the written value; every other preference reads as before; every other section and every other property of the section are unchanged, and the written property keeps its kind, caption and name |
| PrefGrid.PrefPropGrid.SetPrefVal | psychopy/app/preferencesDlg.py:378-384 | the grid becomes what `WithPrefVal` gives, and its page invariant still holds; the result says whether a value was written, or the error |
| PrefGrid.PrefPropGrid.GetPrefVal | psychopy/app/preferencesDlg.py:386-391 | reads `PrefVal` of the current grid |
| PrefRules.CleanedSpec | psychopy/app/preferencesDlg.py:793-796 | after `option(` and the quotes are removed, no quote is left |
| PrefRules.SpecFields | psychopy/app/preferencesDlg.py:793-796 | splitting the cleaned spec gives at least one field |
| PrefRules.FieldsOf | psychopy/app/preferencesDlg.py:793-796 | everything before the last field is as many options as there are commas; no field holds a comma or quote; options plus last field join back to the text |
| PrefRules.SpecFieldsEffect | psychopy/app/preferencesDlg.py:667-670 | the options and the `default=…` field of a spec, joined by commas, give back the cleaned spec |
| PrefRules.SpecDefaultEffect | psychopy/app/preferencesDlg.py:640-680 | the spec has a default iff its last field, stripped of parentheses, holds `=`, and the default itself holds no `=` |
| PrefRules.FirstIndex | psychopy/app/preferencesDlg.py:673 | `list.index`: absent iff the value is not in the list, else the first position that holds it |
| PrefRules.OptionDefaultEffect | psychopy/app/preferencesDlg.py:658-680 | a current value among the options gives its first index; otherwise the spec's named default, or index 0 if it has none |
| PrefRules.LatencyDefault | psychopy/app/preferencesDlg.py:627-655 | the current value as an int when it converts; on a `ValueError`, the spec default as an int, or 0; a `TypeError` from `int()` escapes |
| PrefRules.DarwinSave | psychopy/app/preferencesDlg.py:751-758 | a leading `Cmd+` in any letter case becomes `Ctrl+`; anything else is kept |
| PrefRules.CapitalizeAll | psychopy/app/preferencesDlg.py:753-754 | each part capitalised, in order |
| PrefRules.CapitalizeKeeps | psychopy/app/preferencesDlg.py:753-754 | capitalising introduces no non-letter character |
| PrefRules.BindingPartsClean | psychopy/app/preferencesDlg.py:751-754 | the normalised parts hold no space and no `+` |
| PrefRules.NormalisedParts | psychopy/app/preferencesDlg.py:751-754 | a normalised binding holds no space and splits back into its parts |
| PrefRules.NormalisedIdempotent | psychopy/app/preferencesDlg.py:751-754 | normalising a binding twice is normalising it once |
| PrefRules.CmdPrefix | psychopy/app/preferencesDlg.py:718 | a `Cmd+`-prefixed text matches the prefix pattern |
| PrefRules.DarwinRoundTrip | psychopy/app/preferencesDlg.py:549-553 | showing a binding with `Cmd+` and saving it back (lines 756-758) gives the original iff it has no `Ctrl+` and no leading `Cmd+`, or a single leading `Ctrl+` |
| PrefRules.Wrapped | psychopy/app/preferencesDlg.py:788-791 | a list is kept, anything else becomes a one-element list |
| PrefRules.ListValue | psychopy/app/preferencesDlg.py:762-791 | `''` becomes `['']`, a list is kept, other text is `eval`ed and wrapped, and a failed `eval` or a value of another type is an error |
| PrefRules.ListValueIdempotent | psychopy/app/preferencesDlg.py:762-791 | converting an already converted value changes nothing |
| PrefRules.PyIndex | psychopy/app/preferencesDlg.py:725-797 | Python list indexing: non-negative and negative in-range indices, `IndexError` out of range, `TypeError` for a non-integer |
| PrefApply.Store | psychopy/app/preferencesDlg.py:759 | storing fails iff the section is missing; otherwise only that one preference changes |
| PrefApply.PrefStepKeeps | psychopy/app/preferencesDlg.py:720-797 | one preference step changes at most that preference in the configuration and skips `version` |
| PrefApply.StoreChosenKeeps | psychopy/app/preferencesDlg.py:727-738 | a list choice changes at most that preference |
| PrefApply.PrefStepStores | psychopy/app/preferencesDlg.py:725-797 | a completed step stores the chosen locale in both the app and the configuration; a list spec stores a list; an option spec stores one of the options; a key binding is stored normalised and with its macOS prefix fixed |
| PrefApply.InvalidListLeavesText | psychopy/app/preferencesDlg.py:759-787 | an invalid list stops the loop with the raw stripped text already stored |
| PrefApply.SectionStopPersists | psychopy/app/preferencesDlg.py:771-787 | after the loop has stopped, later preferences change nothing |
| PrefApply.AllStopPersists | psychopy/app/preferencesDlg.py:771-787 | a stop in the first k sections is the result of the whole loop |
| PrefApply.SectionSplit | psychopy/app/preferencesDlg.py:721-797 | a section's preferences can be applied in two parts |
| PrefApply.ApplySectionKeeps | psychopy/app/preferencesDlg.py:721-797 | the sections stay the same, and a preference that a section does not list (or `version`) keeps its value |
| PrefApply.ApplyAllKeeps | psychopy/app/preferencesDlg.py:720-797 | the same over the whole spec |
| PrefApply.PreferencesDialog.constructor | psychopy/app/preferencesDlg.py:417-530 | the dialog holds the configuration, locale, grid, spec and choice lists it is given |
| PrefApply.PreferencesDialog.ApplyLoop | psychopy/app/preferencesDlg.py:720-797 | the nested loop returns `ApplyAll` of the spec, stopping at the first invalid list or raised error |
| PrefApply.PreferencesDialog.ApplyPrefs | psychopy/app/preferencesDlg.py:712-797 | nothing happens when the grid is unmodified; otherwise the configuration and locale become the loop's result, and the outcome says whether the loop finished or stopped |
| CodeComponent.CodeTypeOf | psychopy/experiment/components/code/__init__.py:62-63 | an empty or missing code type falls back to the preferred language |
| CodeComponent.KeySet | psychopy/experiment/components/code/__init__.py:175-180 | the set of a key list's keys |
| CodeComponent.InitialParamsEffect | psychopy/experiment/components/code/__init__.py:42-180 | the fresh params hold the code type with its four allowed values, the six Python slots with their arguments, and the six JS slots empty; the code type is stored as given, without a check against its allowed values; the trimmed keys are gone; other inherited params are kept |
| CodeComponent.CodeTypeDeclared | psychopy/experiment/components/code/__init__.py:65-70 | the code type parameter as declared |
| CodeComponent.PythonDeclared | psychopy/experiment/components/code/__init__.py:72-122 | each Python slot holds its constructor argument |
| CodeComponent.JSDeclared | psychopy/experiment/components/code/__init__.py:123-173 | each JS slot starts empty |
| CodeComponent.TrimStep | psychopy/experiment/components/code/__init__.py:175-180 | deleting one more present key extends the trim by that key |
| CodeComponent.CodeComponent.constructor | psychopy/experiment/components/code/__init__.py:42-180 | type `Code`, targets PsychoPy and PsychoJS, the fourteen-entry order, and params equal to `InitialParams` |
| CodeComponent.Emitted | psychopy/experiment/components/code/__init__.py:182-235 | nothing for empty code; otherwise one line, the code followed by a newline |
| CodeComponent.CodeKeysDistinct | psychopy/experiment/components/code/__init__.py:56-61 | the display order is the name, the code type, the six Python slots then the six JS slots, and the twelve code slots are distinct |
| CodeComponent.PythonWriter | psychopy/experiment/components/code/__init__.py:182-235 | every Python slot has its writer |
| CodeComponent.JSWriter | psychopy/experiment/components/code/__init__.py:182-235 | every JS slot except `Before JS Experiment` has its writer |
| CodeComponent.WriterKeys | psychopy/experiment/components/code/__init__.py:182-235 | JS writers read JS slots, the others read Python slots, no two writers read the same slot, and none reads `Before JS Experiment` |
| CodeComponent.FreshWriters | psychopy/experiment/components/code/__init__.py:42-235 | on a fresh component, each Python writer emits its constructor argument and each JS writer emits nothing |
| CodeComponent.Buffer.constructor | psychopy/experiment/components/code/__init__.py:182-235 | an empty script buffer |
| CodeComponent.Buffer.WriteIndentedLines | psychopy/experiment/components/code/__init__.py:185 | appends the text |
| CodeComponent.CodeComponent.Write | psychopy/experiment/components/code/__init__.py:182-235 | any writer appends what its slot emits, and only that |
| CodeComponent.CodeComponent.WritePreCode | psychopy/experiment/components/code/__init__.py:182-185 | appends `Before Experiment` plus a newline when it is not empty |
| CodeComponent.CodeComponent.WriteInitCode | psychopy/experiment/components/code/__init__.py:187-190 | the same for `Begin Experiment` |
| CodeComponent.CodeComponent.WriteInitCodeJS | psychopy/experiment/components/code/__init__.py:192-195 | the same for `Begin JS Experiment` |
| CodeComponent.CodeComponent.WriteRoutineStartCode | psychopy/experiment/components/code/__init__.py:197-200 | the same for `Begin Routine` |
| CodeComponent.CodeComponent.WriteRoutineStartCodeJS | psychopy/experiment/components/code/__init__.py:202-205 | the same for `Begin JS Routine` |
| CodeComponent.CodeComponent.WriteFrameCode | psychopy/experiment/components/code/__init__.py:207-210 | the same for `Each Frame` |
| CodeComponent.CodeComponent.WriteFrameCodeJS | psychopy/experiment/components/code/__init__.py:212-215 | the same for `Each JS Frame` |
| CodeComponent.CodeComponent.WriteRoutineEndCode | psychopy/experiment/components/code/__init__.py:217-220 | the same for `End Routine` |
| CodeComponent.CodeComponent.WriteRoutineEndCodeJS | psychopy/experiment/components/code/__init__.py:222-225 | the same for `End JS Routine` |
| CodeComponent.CodeComponent.WriteExperimentEndCode | psychopy/experiment/components/code/__init__.py:227-230 | the same for `End Experiment` |
| CodeComponent.CodeComponent.WriteExperimentEndCodeJS | psychopy/experiment/components/code/__init__.py:232-235 | the same for `End JS Experiment` |
| PyStrings.Split | psychopy/visual/form.py:258 | `str.split` on one character gives at least one field, and no field holds the separator |
| PyStrings.JoinSplit | psychopy/visual/form.py:258 | joining the fields of a split gives back the text |
| PyStrings.ReplaceAbsent | psychopy/app/preferencesDlg.py:752 | `str.replace` of a pattern that does not occur changes nothing |
| PyStrings.Strip | psychopy/app/preferencesDlg.py:748-749 | `str.strip` removes the leading and trailing whitespace |
| PyStrings.SplitJoin | psychopy/app/preferencesDlg.py:753-754 | splitting a join of separator-free parts gives back the parts |
| PyStrings.StripChars | psychopy/app/preferencesDlg.py:644 | `str.strip('()')` removes exactly the leading and trailing run of the given characters |
| PyStrings.StripTrimmed | psychopy/app/preferencesDlg.py:748-749 | stripping text with no outer whitespace changes nothing |
| PyStrings.Lower | psychopy/visual/form.py:402-407 | `str.lower`, character by character |
| PyStrings.LowerIsMeaning | psychopy/app/preferencesDlg.py:718 | the case-insensitive comparison holds iff the lower-case text equals the target |
| PyStrings.Capitalize | psychopy/app/preferencesDlg.py:753-754 | `str.capitalize`: the first character upper-case, the rest lower-case |
| PyStrings.ReplaceCharRemovesIt | psychopy/app/preferencesDlg.py:752 | replacing a character by text without it removes every occurrence |
| PyStrings.CapitalizeIdempotent | psychopy/app/preferencesDlg.py:753-754 | capitalising twice is capitalising once |

## Left out

- `importConditions`: reading items from a CSV or Excel file is file I/O. The model starts from a list of rows.
- Logging, `autoLog` and the deprecation warnings are output only.
- The random number generator behind `shuffle` is left out. `Shuffle` takes the draws as a parameter, and its contract says only that the result is a permutation.
- FormItems.ImportItems: with `randomize` set, only a permutation of the unshuffled result is claimed, because the order depends on the random draws.
- Rows are values, not shared objects. The source mutates the caller's dictionaries in place. Aliasing between the caller's list and the form's items is not captured.
- The shared `_knownFields` table's `index` entry is threaded in and out of the import as a value (`FieldTable`).
- The visual widgets are left out: `TextStim`, `Slider` and `TextBox` creation, `_makeTextBox`, `_setScrollBar`, `_setBorder`, `_setAperture`, `_drawDecorations` and `draw`.
  - A laid-out item holds a small record of its control instead of a widget.
  - The measured heights (`_getQuestionHeight`, `_getSliderHeight`) are inputs to the layout.
  - The text box height is the constant `FreeTextHeight`, half of the 0.25 height `_makeTextBox` requests. This assumes `TextBox2` keeps the size it is given.
- Mouse-wheel scrolling is left out. The scroll marker is a field.
- The laid-out item does not keep the rendered question width, the slider label wrap or the response position: those feed the PsychoPy stimuli (`TextStim`, `Slider`), which are not part of this model; `ItemResponseGeometry` shows that they are defined for every item that gets a response.
- Floating point is modelled as exact reals: there is no rounding in positions, widths, the visible fraction or the scroll offset.
- `_doLayout`'s iteration over `self.items` is written as a loop over indices. Each item is replaced in place, as `_setResponse` does through the shared dictionary.
- `FormLayout.Form.constructor`: it covers `__init__` up to its call of `_doLayout`. The caller then runs `DoLayout`, because the layout needs the measured heights.
- `FormLayout.HasFields`: the layout's precondition names only the five fields the layout reads, not every known field. `ImportedHaveFields` shows that imported items meet it.
- The following parts of `populatePrefs` are left out: the widget dispatch, the label translation, the font, theme and audio-device lists, and `populateGrid`. The rules it shares with `applyPrefs` are modelled: option parsing, defaults, the latency default and the macOS key display.
  - The audio-device default in `populatePrefs` would be one more `list.index`; it is not modelled separately.
- `PrefRules.DarwinDisplay` is stated on any binding. The source applies it only to bindings whose spec starts with `string`, a test made in the `populatePrefs` dispatch, which is left out.
- The following parts of the preferences dialog are left out:
  - the wx image list, the list control of page names and the `wx.propgrid` page object returned by `AddPage`;
  - the conversion wx performs in `SetValue`/`GetValue`;
  - the event handlers and `isModified` (it becomes the `modified` parameter).
- The order of `prefsSpec` is taken as given by the `seq` of sections; the spec objects' own ordering rules are not modelled.
- The steps after the `applyPrefs` loop are left out: `saveUserPrefs` (validation and file output), the re-run of `populatePrefs`, the theme reset and `updateCoderUI`. Of `app.prefs`, only the locale is modelled.
- The warning dialog shown for an invalid list is left out. Its effect, the early return, is modelled as `Stop`.
- PrefGrid.PrefPropGrid.AddIntegerItem: takes an `int`, so the `ValueError` or `TypeError` that `int(value)` raises on a non-integer is not modelled. The one call site, in `populatePrefs`, passes a preference whose spec is `integer`.
- Python's `eval`, `int()` and `platform.system()` are parameters (`eval`, `toInt`, `darwin`), because their behaviour is outside this code.
- Case mapping in `lower` and `capitalize` covers ASCII letters only. Other Unicode case mappings are left out.
- `alerttools.checkPythonSyntax` is left out: it only raises alerts and does not change what is written.
- `writeIndentedLines`' indentation and line splitting are left out: `Buffer.WriteIndentedLines` appends the text as one entry.
- `BaseComponent` and `Param` internals are left out: hints, labels, `allowedTypes` and `allowedUpdates`, and the inherited parameters, which are an input.
- `str(param)` is taken to be the parameter's `val`.
- The `translator` argument and the component URL are left out: nothing in this code reads them.

## Findings

| source | as written | input that shows it | evidently intended | confidence | as-written member | corrected member |
|---|---|---|---|---|---|---|
| psychopy/visual/form.py:799-815 | `getData` skips only items with no `responseCtrl` key, but `_setResponse` (form.py:409) stores `None` for headings and descriptions, so `None.text` raises `AttributeError` | a form whose only item has type `heading` | skip an item whose control is `None`, as the comment "maybe a heading or similar" says | not executed | FormLayout.Form.HeadingFormUnreadableAsWritten | FormLayout.Form.GetData |
| psychopy/app/preferencesDlg.py:223 | `addPage` checks the name against `self.pages.keys()`, which are page indices, so a duplicate page name is never rejected | `addPage('A', 'general')` called twice | reject a name already in `self.pageNames` | not executed | PrefGrid.PageNameNeverAKey | PrefGrid.PrefPropGrid.AddPageChecked |
| psychopy/app/preferencesDlg.py:295-303 | `addFileItem` starts a new section as a list `[]`, and the next line calls `.update` on it | `addFileItem('newSection', name='f')` with no section `newSection` yet | start the section as a dict, as every other adder does | not executed | PrefGrid.FileItemOnNewSectionFails | PrefGrid.PrefPropGrid.AddFileItemFixed |
