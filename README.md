# veo3-creator: a verified model of the script-to-commands pipeline

veo3-creator is a small web form. It turns a narration script into a list of
text commands for a video-generation tool, one command per clip of speech. The
project models three things. First, the chunker, which cuts the script into
clips of a fixed number of words. Second, the command builder, which renders
one clip into one command from a fixed template. Third, the part of the app
component that derives the clips from the script and the command text from the
clips and the settings, together with the handlers that edit the settings.

The modules follow the program's files:

- `Text` (text.dfy) models the JavaScript built-ins the pipeline relies on:
  - the `\s` character class (the ECMAScript WhiteSpace and LineTerminator
    code points);
  - `trim()`, `split(/\s+/)` and `join`;
  - the decimal rendering of a number inside a template literal;
  - counting the occurrences of a pattern, used to state what a join adds.
- `Types` (types.ts) holds the settings record, with its two closed
  enumerations as datatypes.
- `ScriptUtils` (utils/scriptUtils.ts) holds `chunkWordsToClips`. It is a method
  whose loop steps through the words `n` at a time and pushes each slice, joined
  by spaces. The method is proved equal to the specification function `Clips`.
  The partition properties are proved about that function.
- `CommandBuilder` (services/commandBuilder.ts) holds `buildVeoCommand`:
  - the shot-instruction priority chain;
  - quote sanitising;
  - the progress marker;
  - the template, modelled line by line, then wrapped in its framing line
    breaks and trimmed as the source does. The four shot instructions and
    every template line are transcribed exactly.
- `App` (App.tsx) holds:
  - the `clips` and `commands` memos as functions;
  - the field handlers and `applyVoicePreset` as record updates;
  - a class `AppState` holding `script` and `settings`, whose methods make those
    updates in place.

The number of words per clip comes from a constants module that is not part of
this model. It is the parameter `n >= 1`; the source's loop only ends when
`n > 0`.

## Model

| member | source | states |
|---|---|---|
| Text.Trim | utils/scriptUtils.ts:4 | `trim()` is empty exactly when the text is all whitespace; otherwise it starts and ends with non-whitespace |
| Text.TrimSlice | utils/scriptUtils.ts:4 | the trimmed text is a slice of the input with only whitespace before and after it |
| Text.TrimUnique | utils/scriptUtils.ts:4 | conversely, any such slice with non-whitespace ends is the trimmed text, so `trim()` removes the leading and trailing whitespace and nothing else |
| Text.SliceUnique | utils/scriptUtils.ts:4 | two whitespace-framed slices of the same text with non-whitespace ends, one of them empty only for an all-whitespace text, are equal |
| Text.TrimFramed | services/commandBuilder.ts:27-46 | trimming a text framed by one whitespace character on each side, with non-whitespace ends inside, gives back the inside |
| Text.SplitWs | utils/scriptUtils.ts:8 | `split(/\s+/)` never gives an empty array: there is always at least one piece |
| Text.SplitWsShape | utils/scriptUtils.ts:8 | `split(/\s+/)` gives whitespace-free pieces. The first (last) piece is empty exactly when the text is empty or starts (ends) with whitespace. No middle piece is empty. There is one piece exactly when the text has no whitespace |
| Text.SplitWsTrimmed | utils/scriptUtils.ts:8 | a text with non-whitespace ends splits into non-empty whitespace-free pieces |
| Text.JoinSplitWs | utils/scriptUtils.ts:8 | splitting on whitespace runs and joining with one space is the same as collapsing every whitespace run to one space |
| Text.SplitJoinSpace | utils/scriptUtils.ts:12 | splitting the single-space join of non-empty whitespace-free words gives the words back (round trip) |
| Text.JoinSpaceNormalized | utils/scriptUtils.ts:12 | the single-space join of such words is already normalised |
| Text.JoinAppend | App.tsx:39 | the join of two non-empty lists is the two joins glued by one separator |
| Text.JoinContains | App.tsx:39 | every part occurs in the join |
| Text.JoinFirstLast | App.tsx:39 | the join starts with the first part and ends with the last |
| Text.JoinAdjacent | App.tsx:39 | consecutive parts occur in the join with exactly one separator between them |
| Text.NatToString | services/commandBuilder.ts:10 | the decimal text of a number is non-empty, all digits, and has no leading zero |
| Text.ParseNatToString | services/commandBuilder.ts:10 | reading the decimal text back gives the number |
| Text.NatToStringInjective | services/commandBuilder.ts:10 | distinct numbers have distinct decimal texts |
| Text.CountOccConcat | App.tsx:39 | no occurrence of a pattern straddles a seam whose characters are outside the pattern |
| Text.CountOccJoin | App.tsx:39 | joining parts whose end characters are outside the separator adds exactly one separator per seam |
| Text.SumOccZero | App.tsx:39 | when no part holds the pattern, the parts hold none in total |
| Types.ParseAspect | types.ts:2 | exactly the three texts `16:9`, `9:16`, `1:1` are aspect ratios, each read back to the ratio with that text |
| Types.ParseQuality | types.ts:3 | exactly the two texts `1080p`, `720p` are resolutions, each read back to the resolution with that text |
| Types.AspectRoundTrip | types.ts:2 | every aspect ratio is read back from its own text |
| Types.QualityRoundTrip | types.ts:3 | every resolution is read back from its own text |
| ScriptUtils.Words | utils/scriptUtils.ts:8 | the word list is never empty, even for a blank script |
| ScriptUtils.WordsAreRuns | utils/scriptUtils.ts:8 | the words of a non-blank script are non-empty and whitespace-free, and joined by single spaces give the normalised script |
| ScriptUtils.Clips | utils/scriptUtils.ts:3-15 | the clips a script gives: there are none exactly when the script is empty or all whitespace |
| ScriptUtils.ChunkWordsToClips | utils/scriptUtils.ts:3-15 | the method's result is `Clips(script, n)`: nothing for a blank script, else one single-space join per group of `n` words |
| ScriptUtils.ChunkWords | utils/scriptUtils.ts:9-14 | the loop pushes the join of each consecutive slice of `n` words, in order; the invariant ties the clips pushed so far to the groups still to come |
| ScriptUtils.LoopStep | utils/scriptUtils.ts:10-13 | one pass of the loop keeps the invariant |
| ScriptUtils.FlattenGroups | utils/scriptUtils.ts:10-12 | the groups, read in order, give back every word exactly once |
| ScriptUtils.GroupSizes | utils/scriptUtils.ts:10-11 | every group but the last has exactly `n` items; the last has 1 to `n`; there are groups exactly when there are items |
| ScriptUtils.GroupCount | utils/scriptUtils.ts:10 | the number of groups is the ceiling of the item count over `n` |
| ScriptUtils.GroupsExactMultiple | utils/scriptUtils.ts:10-11 | `k * n` items give `k` groups of `n` |
| ScriptUtils.GroupsPartition | utils/scriptUtils.ts:10-12 | the groups of a non-empty list: ceiling(items / n) of them, all but the last of `n` items, the last of 1 to `n`, flattening back to the items |
| ScriptUtils.GroupsRemainder | utils/scriptUtils.ts:10-11 | `k * n + r` items with `0 < r < n` give `k + 1` groups, the last of `r` |
| ScriptUtils.ClipsPartitionWords | utils/scriptUtils.ts:8-13 | there are ceiling(words / n) clips. Clip `i` renders group `i`. All groups but the last have `n` words and the last has 1 to `n`. The groups flatten back to the words |
| ScriptUtils.ClipsAreNormalized | utils/scriptUtils.ts:12 | every clip is non-empty and normalised (no leading, trailing or doubled spaces), and splits back into its group's words |
| ScriptUtils.ClipsJoinToNormalized | utils/scriptUtils.ts:8-13 | the clips joined by single spaces give the normalised script: no word is lost, duplicated or reordered |
| ScriptUtils.ClipsExactMultiple | utils/scriptUtils.ts:10-13 | a script of `k * n` words gives `k` clips of `n` words each |
| ScriptUtils.ClipsRemainder | utils/scriptUtils.ts:10-13 | a script of `k * n + r` words gives `k + 1` clips, the last of `r` words |
| CommandBuilder.SelectShot | services/commandBuilder.ts:13-22 | each shot instruction stated on its own terms, without the order of the chain: clip 1 opens; a clip other than 1 transitions exactly when it is a multiple of five before the last; a clip other than 1 closes exactly when it is the last; every other clip continues |
| CommandBuilder.ShotRules | services/commandBuilder.ts:13-22 | the cases where the chain's order matters: a one-clip script opens, clip 5 of 10 transitions, and clips 10 of 10 and 5 of 5 close |
| CommandBuilder.ShotTally | services/commandBuilder.ts:13-22 | over a whole script exactly one clip opens, one closes when there are at least two, (total - 1) / 5 transition and the rest continue |
| CommandBuilder.Sanitize | services/commandBuilder.ts:25 | same length; every `"` becomes `'`, every other character stays; no `"` is left |
| CommandBuilder.SanitizeFixedPoints | services/commandBuilder.ts:25 | sanitising changes nothing exactly when there is no `"`, so it is idempotent |
| CommandBuilder.ProgressLabel | services/commandBuilder.ts:9-10 | the marker starts with `Clip ` and is the two decimal numbers plus nine characters long |
| CommandBuilder.ProgressLabelInjective | services/commandBuilder.ts:9-10 | `Clip ${index + 1} of ${total}` determines both numbers |
| CommandBuilder.CommandLines | services/commandBuilder.ts:27-46 | the template has 18 lines: it opens with the invocation, line 8 is the blank line between the video and audio halves, and it closes with `--native_audio` |
| CommandBuilder.BuildVeoCommand | services/commandBuilder.ts:3-47 | trimming the template removes exactly its framing line breaks, whatever the settings hold, so the command is the template lines joined by line breaks |
| CommandBuilder.TrimTemplate | services/commandBuilder.ts:27-46 | any line list that starts with the invocation and ends with the native-audio flag loses only its framing breaks to trimming |
| CommandBuilder.TemplateEnds | services/commandBuilder.ts:28-45 | the joined template starts with `v` and ends with `o` |
| CommandBuilder.CommandParts | services/commandBuilder.ts:27-46 | the command is the video lines, a blank line, the audio lines and the flag lines |
| CommandBuilder.CommandContents | services/commandBuilder.ts:30-43 | the command holds the progress marker, the character line, the action line with the sanitised segment, the chosen shot instruction and the style; the dialogue line with the sanitised segment, and the voice, music and sound-effect lines; and the aspect-ratio and resolution flags |
| CommandBuilder.CommandFrame | services/commandBuilder.ts:28-45 | the command starts with `veo3 generate --prompt """` and ends with the aspect-ratio, resolution, `--duration 8s` and `--native_audio` lines in that order |
| CommandBuilder.CommandShot | services/commandBuilder.ts:13-33 | the command holds the shot instruction chosen for its clip number |
| CommandBuilder.FirstAndLastCommands | services/commandBuilder.ts:14-19 | the first clip's command opens the scene, and in a script of two or more clips the last clip's command closes it |
| App.Apply | App.tsx:135-234 | a field handler writes its value into its own field and leaves the other seven unchanged |
| App.ApplyLastWins | App.tsx:135-234 | of two edits of the same field the later wins |
| App.ApplyCommutes | App.tsx:135-234 | edits of different fields commute |
| App.ApplyUnchanged | App.tsx:135-234 | an edit leaves the record as it was exactly when the field already held that value |
| App.ParseVoice | App.tsx:65-70 | exactly the three preset keys find a preset, each that button's own |
| App.VoiceKeyRoundTrip | App.tsx:65-70 | every button's key finds that button's preset |
| App.WithVoicePreset | App.tsx:65-72 | `applyVoicePreset` sets the voice instructions to the chosen preset and leaves the other seven fields unchanged |
| App.ApplyVoicePresetIsEdit | App.tsx:65-72 | applying a preset twice is applying it once, and a later voice edit replaces it |
| App.Blocks | App.tsx:36-38 | one command per clip; command `i` is built from clip `i`, position `i` and total `clips.length` |
| App.Commands | App.tsx:34-40 | the command text is empty exactly when there are no clips, and a single clip's text is its command with no separator |
| App.CommandEnds | App.tsx:38 | every command starts with `v` and ends with `o` |
| App.FramedJoin | App.tsx:39 | joining such commands with the separator is non-empty and adds exactly one separator per seam |
| App.CommandsHoldEveryClip | App.tsx:36-39 | the text holds, for each clip `i`, the command built from clip `i`, position `i` and total `clips.length` |
| App.CommandsFirstLast | App.tsx:37-39 | for any non-empty list of clips the text starts with the first clip's command and ends with the last clip's |
| App.CommandsInOrder | App.tsx:37-39 | any two consecutive commands appear in the text with one separator between them |
| App.SeparatorCount | App.tsx:39 | the text holds `n - 1` separators for `n` clips, besides any the commands themselves hold |
| App.SeparatorCountExact | App.tsx:39 | when no command holds the separator, `n` clips give exactly `n - 1` separators |
| App.ScriptToCommands | App.tsx:32-40 | a script of `w` words gives ceiling(w / n) clips; clip `i` is group `i`'s words joined by single spaces, and command `i`, and so the text, holds the dialogue line of those words, sanitised |
| App.NoCommandsForEmptyScript | App.tsx:32-35 | an empty script gives no clips and no command text |
| App.AppState.constructor | App.tsx:10-30 | the initial state: an empty script, 16:9 and 1080p, the given default texts, and so no clips and no commands |
| App.AppState.CurrentClips | App.tsx:32 | the `clips` memo: none exactly when the script is blank |
| App.AppState.CurrentCommands | App.tsx:34-40 | the `commands` memo: empty exactly when the script is blank |
| App.AppState.ChunkScript | App.tsx:32 | recomputing the clips runs the chunker on the current script; there are none exactly when it is blank |
| App.AppState.SetScript | App.tsx:116 | typing replaces the script and leaves the settings |
| App.AppState.Edit | App.tsx:135-234 | a handler replaces its own field only; the script, and so the clips, stay |
| App.AppState.ApplyVoicePreset | App.tsx:65-72 | a preset button replaces the voice instructions only; the script stays |

## Left out

- The JSX rendering, the `copyAll` clipboard action (with its alerts) and the `downloadTxt` file download. They are user-interface and browser I/O, with no logic the commands depend on.
- The running-time display `Math.round(clips.length * 8 / 60)` is floating-point and cosmetic.
- React's memoisation and re-rendering are left out. `CurrentClips` and `CurrentCommands` are functions of the state, which is what the memo dependencies promise.
- The long default texts of the settings and the three preset texts are not transcribed. The texts are parameters of the `AppState` constructor and a `PresetTable`.
- The constants module that defines the number of words per clip is not part of this model. The number is the parameter `n >= 1`.
- JavaScript strings are UTF-16 code units, and Dafny strings are sequences of Unicode scalar values. A character outside the Basic Multilingual Plane is one element here and two code units there. A lone surrogate, which a JavaScript string can hold, cannot occur in a Dafny string, so such scripts are outside the model. No whitespace character is affected, and neither is `"`.
- App.ParseVoice: `presets[voiceType]` with a key other than the three gives `undefined`, or the inherited `Object.prototype` member for names such as `toString`, which App.tsx:71 would then store in `voiceNote`. The three buttons only ever pass the three keys, so the model takes a `Voice` and leaves both cases out.
- Types.ParseAspect: the select boxes' `as` casts are not checked at run time. The model assumes, as the options guarantee, that the value is one of the listed texts.
- App.SeparatorCountExact: needs the hypothesis that no command holds the separator. The user's texts could contain `\n\n---\n\n`, in which case the count is the one `App.SeparatorCount` gives.
- App.Blocks: position and total are the natural numbers `map` supplies. Negative or fractional numbers, which `buildVeoCommand` would accept from other callers, are not modelled.
