# Scenario interpreter of a linear visual-novel engine

This project models the browser-side interpreter of a visual-novel engine.
The interpreter walks a sorted list of scenario commands and updates a
stage. The stage holds a background image, the on-screen character
portraits (in the order they were added), an overlay image, the dialogue
text and the speaker's name box. After a saved game is loaded, the
interpreter can rebuild the background and portraits of any resume line.

Modules, one per component of `public/app.js`:

- `Strings`: `startsWith`, the search for the first occurrence of a
  substring, and `replace` with a string pattern. `replace` is modelled two
  ways: read literally, and with JavaScript's `$` replacement patterns.
- `Assets`: the asset resolver (`resolveBgUrl`, `resolveCharUrl`).
  `encodeURIComponent` is a parameter `enc` of every member. What is proved
  therefore holds for every encoder, or for every injective encoder where
  the lemma says so.
- `Catalog`: scenario commands, character records and catalog entries. It
  models the stable sort by `order` (a missing `order` counts as 0) and the
  fold of character records into the catalog. Both are done by `init`.
- `Portraits`: the `char_<id>` images and the three ways a command changes
  them. `char_show` creates or updates one, `char_hide` removes one, and a
  `text` line dims every portrait except the speaker's.
- `Interpreter`: the stage as a value. It states what one command does live
  (`Step`) and during a rebuild (`ReplayStep`), what a list of commands does
  (`Exec`, `Replay`), and where one call of `processLine` stops
  (`ChainEnd`). Its lemmas relate replay to live play.
- `Engine`: class `Session`. It holds the closure state of `mainGameInit`
  (scenario, catalog, `currentLine`, player name) and the stage fields that
  the source changes in place. Its methods are `init`'s catalog part,
  `updateCharacterImage`, `rebuildStage`, `processLine`, `startGame` and the
  success branch of `handleLoad`. `Init` is proved against
  `Catalog.SortByOrder` and `Catalog.Group`. `UpdateCharacterImage` and
  `Spotlight` are proved against `Portraits.ShowPortrait` and
  `Portraits.Spotlit`. The rebuild and the interpreter methods are proved
  against `Interpreter.ReplayStep`, `Replay`, `Step` and `Exec`. Each
  method's `modifies` clause names the fields it may change, and every
  other field keeps its value.

In `processLine`, each silent command calls `processLine` again. The model
turns that self-recursion into a `while` loop that stops once a pausing
command (`text` or `img_show`) has run. In the source each silent command
adds a stack frame, so a very long run of silent commands can overflow the
call stack. The loop has no such limit. The stage mutations are assignments
to `Session` fields. An element lookup by id (`getElementById`) becomes a
search of the portrait sequence by character id.

Four behaviours of the code that are easy to misread; the model follows the
code:

- The stage records each portrait's resolved image URL, not an expression id.
- Only backgrounds and overlays accept an `http...` id unchanged. A
  character id is always resolved, except for `narrator`.
- `currentLine` is not kept within the scenario length. A saved line beyond
  the end makes `rebuildStage` throw when it reads the missing command
  (`RebuildStage` and `StartGame` return `ok == false`).
- `char_show` rewrites the element's class. This drops the `inactive` mark
  set by an earlier `text` line.

## Model

| member | source | states |
|---|---|---|
| Strings.FindFrom | public/app.js:168-169 | the offset found is an occurrence of the pattern with none before it; `None` means there is no occurrence |
| Strings.ReplaceFirst | public/app.js:168-169 | a string without the pattern is unchanged; otherwise exactly the first occurrence is replaced by the replacement text |
| Strings.JsReplaceFirst | public/app.js:168-169 | JavaScript's `replace`: a string without the pattern is unchanged; otherwise exactly the first occurrence is replaced by the replacement with `$$`, `$&`, `` $` `` and `$'` expanded against that occurrence |
| Strings.JsReplaceLiteral | public/app.js:168-169 | when the replacement has no `$`, JavaScript's `replace` equals the literal replacement |
| Assets.ResolveBgUrl | public/app.js:23-30 | an empty id gives `""` and only then is the result empty; an `http...` id is returned as is; any other id gives bucket base + `enc("backgrounds/" + id + ".png")` + `?alt=media` |
| Assets.ResolveCharUrl | public/app.js:33-39 | the result is empty exactly for `narrator`; any other id gives bucket base + `enc("characters/" + id + ".png")` + `?alt=media`, whatever the expression |
| Assets.StorageUrlIsHttp | public/app.js:29 | every storage URL (of a background at line 29 or of a character at line 38) starts with `http` |
| Assets.StorageUrlInjective | public/app.js:29 | with an injective encoder, two storage paths with the same URL are equal |
| Assets.ResolveBgIdempotent | public/app.js:24-29 | resolving a resolved background URL returns it unchanged (every storage URL starts with `http`) |
| Assets.ResolveBgInjective | public/app.js:28-29 | with an injective encoder, two plain background names with the same URL are equal |
| Assets.ResolveCharInjective | public/app.js:37-38 | with an injective encoder, two non-narrator characters with the same fallback URL are equal |
| Catalog.OrderKey | public/app.js:135 | the sort key (`order`, or 0 when it is falsy) is 0 exactly when `order` is missing or 0, and is `order` otherwise |
| Catalog.SortByOrder | public/app.js:135 | the scenario is sorted ascending by `order` (missing counts as 0) and is a permutation of the fetched list |
| Catalog.SortStable | public/app.js:135 | the sort is stable: the commands of each key keep their fetched order |
| Catalog.AddRecordEffect | public/app.js:137-140 | one record adds its character, named by the record only when the character is new, and sets the image of its expression; the other characters and expressions are as before |
| Catalog.GroupKeys | public/app.js:136-141 | `Group`, the fold of the records: a character is in the catalog exactly when it was there before or some record names it |
| Catalog.GroupNameKept | public/app.js:137-139 | a character already in the catalog keeps its name |
| Catalog.GroupNameFromFirst | public/app.js:137-139 | a new character's name comes from the first record that names it |
| Catalog.GroupUrlFromLast | public/app.js:140 | each (character, expression) maps to the image URL of the last record for it |
| Catalog.GroupUrlFromBase | public/app.js:136-141 | a (character, expression) no record names is looked up as before |
| Portraits.FirstIndex | public/app.js:111 | the index found holds the id and no earlier index does; `None` exactly when the id is absent |
| Portraits.FindPortraitFirst | public/app.js:111 | `FindPortrait`, the lookup of `char_<id>` (also at lines 173 and 186): the portrait found is that character's first, and nothing is found exactly when the character has no portrait |
| Portraits.Position | public/app.js:124 | the position class is never empty, and an explicit position is kept |
| Portraits.PortraitUrl | public/app.js:119-121 | the catalog URL for the expression when it exists and is non-empty, otherwise the resolver's fallback |
| Portraits.ShowPortrait | public/app.js:110-125 | afterwards the character is present exactly once, with the chosen URL, its position (`center` when empty) and no `inactive` mark; an existing character keeps its place and a new one goes last; the other portraits are unchanged |
| Portraits.RemovePortrait | public/app.js:185-187 | hiding an absent character changes nothing; hiding a present one removes exactly one portrait |
| Portraits.RemovePortraitUnique | public/app.js:185-187 | on a stage with unique ids, exactly that character's portrait is removed, the others keep their order, and the ids stay unique |
| Portraits.WithoutMembers | public/app.js:185-187 | the portraits left are exactly those of the other characters |
| Portraits.Spotlit | public/app.js:172-174 | the highlight changes only the `inactive` marks: ids, images and positions are as before |
| Portraits.ShowPortraitByLooks | public/app.js:110-125 | what `char_show` displays depends only on the ids, images and positions shown before |
| Portraits.RemovePortraitByLooks | public/app.js:185-187 | what `char_hide` leaves depends only on the ids, images and positions shown before |
| Interpreter.ChainEnd | public/app.js:157-216 | one `processLine` from a line before the end executes at least one command and stops at or before the end |
| Interpreter.ChainEndStops | public/app.js:165-216 | every command before the stop is silent, and a stop before the end comes right after `text` or `img_show` |
| Interpreter.SilentRunsToEnd | public/app.js:179-214 | a chain with no `text` or `img_show` runs to the end in one call |
| Interpreter.UnknownCommandSkipped | public/app.js:212-215 | an unrecognised command changes nothing, live or in a rebuild |
| Interpreter.TextStep | public/app.js:166-177 | `Step` on a `text` line, with `SpeakerName`: the name box is empty for `narrator`, otherwise the catalog name of the speaker if it is in the catalog and the speaker id if not, with the player name filled in; the dialogue is filled in; every portrait is marked inactive except the speaker's |
| Interpreter.StepFrame | public/app.js:165-216 | `Step`, the `switch`: nothing else changes: only `bg_change` changes the background; only `char_show`/`char_hide` change what the portraits show; only those and `text` touch the portraits; only `img_show`/`img_hide` touch the overlay; only `text` touches the dialogue and name box; ids stay unique |
| Interpreter.FillReplacesFirst | public/app.js:168-169 | `Fill`: the first placeholder of a template is replaced by the player name and the text around it is kept |
| Interpreter.FillPlaceholder | public/app.js:168 | a name template that is just the placeholder renders as the player's name |
| Interpreter.FillFirstOnly | public/app.js:168-169 | only the first placeholder is replaced; a second one stays in the text |
| Interpreter.DollarNameExpanded | public/app.js:168-169 | with the player name `$&`, JavaScript's `replace` shows the placeholder while the literal replacement shows `$&` |
| Interpreter.ReplayStepIsStep | public/app.js:98-105 | `ReplayStep`, one round of the rebuild: its `bg_change`, `char_show` and `char_hide` branches are the live ones, and it skips every other command |
| Interpreter.StepScene | public/app.js:98-105 | a replayed and a live step started from the same scene end in the same scene |
| Interpreter.ReplayAgreesWithExec | public/app.js:92-107 | replaying a list of commands gives the same background and portraits (ids, URLs, positions, order) as executing it live from the same scene |
| Interpreter.ExecSceneCongruent | public/app.js:165-216 | live execution from two stages with the same scene keeps them in the same scene |
| Interpreter.ExecAppend | public/app.js:157-216 | executing two lists one after the other equals executing their concatenation |
| Interpreter.ExecUnique | public/app.js:110-117 | live execution never puts two portraits of the same character on stage |
| Interpreter.ReplayKeepsText | public/app.js:92-107 | a rebuild restores neither the overlay nor the dialogue nor the name box |
| Interpreter.ReplayThenExec | public/app.js:151-154 | replaying a list of commands and then executing another live shows the same scene as executing both live |
| Interpreter.ResumeAgreesWithPlay | public/app.js:151-154 | resuming at `k` (rebuild, then one `processLine`) shows the same scene as playing from the start to the same line |
| Engine.Session.constructor | public/app.js:54-57 | a new session has an empty scenario and catalog, line 0, no player name and an empty stage |
| Engine.Session.Init | public/app.js:135-141 | the scenario becomes the sorted fetched list and the catalog is the fold of the records into it; only these two fields change |
| Engine.Session.UpdateCharacterImage | public/app.js:110-125 | the portraits become `ShowPortrait` of the old ones and stay unique; no other field changes |
| Engine.Session.Spotlight | public/app.js:172-174 | the portraits become `Spotlit` of the old ones; no other field changes |
| Engine.Session.RebuildStage | public/app.js:92-107 | the stage becomes the replay of `[0, k)`; when `k` is past the end the rebuild fails after replaying the whole scenario; only the background and the portraits change |
| Engine.Session.ReplayLine | public/app.js:94-105 | one round of the rebuild loop: a stage rebuilt from a list of commands becomes the stage rebuilt from that list and the line |
| Engine.Session.Dispatch | public/app.js:165-216 | the stage becomes `Step` of the old stage and the command, and the result says whether the command pauses; only the stage changes |
| Engine.Session.Advance | public/app.js:160-216 | one round of `processLine` without the chaining: the line moves on by one, the stage executed so far is extended by the current command, and the result says whether it pauses |
| Engine.Session.ProcessLine | public/app.js:157-217 | at or past the end nothing changes; otherwise `currentLine` moves to `ChainEnd`, and the stage is the live execution of exactly the commands passed over, one each |
| Engine.Session.StartGame | public/app.js:146-155 | on resume the stage is rebuilt to `currentLine`, then one `processLine` runs; a resume line past the end fails before `processLine` |
| Engine.Session.Resume | public/app.js:244-248 | the saved name is taken over; a saved line past the end fails after the rebuild has replayed the whole scenario, and the line stays there; a line at the end rebuilds the whole scenario and stops there; a line before the end rebuilds `[0, line)` and runs one `processLine` |

## Findings

| source | as written | input that shows it | evidently intended | confidence | as-written member | corrected member |
|---|---|---|---|---|---|---|
| public/app.js:168-169 | the player name is passed to `replace` as a replacement pattern, so `$&`, `$$`, `` $` `` and `$'` in it are expanded | player name `$&` with the name template `%PLAYER_NAME%` renders as `%PLAYER_NAME%` (Interpreter.DollarNameExpanded) | the name appears exactly as the player typed it | medium, not executed | Strings.JsReplaceFirst | Strings.ReplaceFirst |

The rest of the model (`Interpreter.Fill`, `Step`, `Session.Dispatch`) uses
the literal replacement. `Strings.JsReplaceLiteral` proves that the two
agree for every name without `$`.

## Left out

- Firebase initialisation, `callApi`, the two remote fetches and their join: the fetched lists are parameters of `Session.Init`. A failed fetch and its error branch are not modelled.
- `handleSave` and the network round-trip of `handleLoad`, the Blob download, the save modal, the spinner and the alerts. This includes the "end of story" alert at the end of the scenario. Only the success branch of `handleLoad` is modelled, as `Session.Resume`.
- DOM event wiring and the buttons: the title screen, dialogue box and button visibility that `startGame` sets; the click handler that calls `processLine`; and the trimming of the typed name.
- `encodeURIComponent`: the encoder is the parameter `enc`, not the real percent-encoding.
- `innerHTML` and `textContent`: the dialogue and name are kept as strings. HTML interpretation of the dialogue is not modelled.
- CSS class strings: a portrait keeps only its position value and its `inactive` flag.
- JavaScript `undefined`/`null` fields and parameters: every field is a string, and a missing one is the empty string, which is falsy like `undefined`. The source differs in two ways. It throws where the model goes on: on a `text` line without a first parameter (the fallback entry at `public/app.js` line 167 has no name, and line 168 calls `replace` on it), on a `text` line without a second parameter, and on a catalog entry without a name. And where it turns `undefined` into text it writes the word: a missing character id gives the element id `char_undefined` and the path `characters/undefined.png` (`public/app.js` lines 37, 111 and 114), where the model has `char_` and `characters/.png`.
- The CSS value `url(...)` written for the background (`public/app.js` lines 99 and 195): the model's background is the resolved URL. `encodeURIComponent` leaves `'`, `(` and `)` unescaped, and an `http` id is not encoded at all. So an id such as `bob's_room`, or an `http` id containing white space, makes the unquoted CSS value invalid, and the browser keeps the old background where `Step` and `ReplayStep` replace it. Whether CSS accepts the URL is not modelled.
- Object-prototype keys: a character id such as `constructor` finds an inherited property of `{}` in the source. The model's catalog is a plain map.
- `order` values are integers: a fractional or `NaN` order and comparator inconsistencies are not modelled.
- A saved `currentLine` that is negative or not a number: `currentLine` is a `nat`.
- Other elements of the page whose id happens to be `char_<id>`: the model's portrait list is the only source of such ids.
- `functions/index.js` and `import.js` are not part of this model: they are remote storage wrappers and a data-import script.
- Portraits.ShowPortrait: the statements about the updated entry and uniqueness are made for stages whose ids are unique. These are the only stages a session reaches (`Session.Valid`). On a stage with duplicate ids only the first entry would be updated, and the contract does not describe that case.
- Portraits.RemovePortraitUnique: the "exactly that character removed" statement is made for stages with unique ids, for the same reason.
- Portraits.RemovePortrait: on its own it promises only that an absent character leaves the stage unchanged and that otherwise exactly one portrait goes; which portrait goes, and that the result equals `Without`, is stated for unique-id stages by `RemovePortraitUnique`.
