/** The application state behind the form: the script, the settings record
    the form edits, the clips derived from the script and the commands
    derived from the clips and the settings. */
module App {
  import opened Text
  import opened Types
  import ScriptUtils
  import opened CommandBuilder

  // ---------------------------------------------------------------- settings edits

  /** The eight fields of the settings record. */
  datatype Field = AspectField | QualityField | StyleField | CharacterNameField
    | CharacterLockField | VoiceNoteField | MusicMoodField | SfxPackField

  /** The value a field holds. */
  datatype Value = AspectValue(aspect: Aspect) | QualityValue(quality: Quality) | TextValue(text: string)

  /** Reading one field of the record. */
  function Get(s: Settings, f: Field): Value {
    match f
    case AspectField => AspectValue(s.aspect)
    case QualityField => QualityValue(s.quality)
    case StyleField => TextValue(s.style)
    case CharacterNameField => TextValue(s.characterName)
    case CharacterLockField => TextValue(s.characterLock)
    case VoiceNoteField => TextValue(s.voiceNote)
    case MusicMoodField => TextValue(s.musicMood)
    case SfxPackField => TextValue(s.sfxPack)
  }

  /** Two records that agree on every field are the same record. */
  lemma SettingsExtensional(a: Settings, b: Settings)
    requires forall f :: Get(a, f) == Get(b, f)
    ensures a == b
  {
    assert Get(a, AspectField) == Get(b, AspectField);
    assert Get(a, QualityField) == Get(b, QualityField);
    assert Get(a, StyleField) == Get(b, StyleField);
    assert Get(a, CharacterNameField) == Get(b, CharacterNameField);
    assert Get(a, CharacterLockField) == Get(b, CharacterLockField);
    assert Get(a, VoiceNoteField) == Get(b, VoiceNoteField);
    assert Get(a, MusicMoodField) == Get(b, MusicMoodField);
    assert Get(a, SfxPackField) == Get(b, SfxPackField);
  }

  /** What one of the form's controls does: the two select boxes, the voice
      textarea, and the five other text inputs and textareas. */
  datatype Edit =
    | AspectEdit(aspect: Aspect)
    | QualityEdit(quality: Quality)
    | StyleEdit(style: string)
    | CharacterNameEdit(characterName: string)
    | CharacterLockEdit(characterLock: string)
    | VoiceNoteEdit(voiceNote: string)
    | MusicMoodEdit(musicMood: string)
    | SfxPackEdit(sfxPack: string)

  /** The field a control writes. */
  function Target(e: Edit): Field {
    match e
    case AspectEdit(_) => AspectField
    case QualityEdit(_) => QualityField
    case StyleEdit(_) => StyleField
    case CharacterNameEdit(_) => CharacterNameField
    case CharacterLockEdit(_) => CharacterLockField
    case VoiceNoteEdit(_) => VoiceNoteField
    case MusicMoodEdit(_) => MusicMoodField
    case SfxPackEdit(_) => SfxPackField
  }

  /** The value a control writes. */
  function NewValue(e: Edit): Value {
    match e
    case AspectEdit(a) => AspectValue(a)
    case QualityEdit(q) => QualityValue(q)
    case StyleEdit(t) => TextValue(t)
    case CharacterNameEdit(t) => TextValue(t)
    case CharacterLockEdit(t) => TextValue(t)
    case VoiceNoteEdit(t) => TextValue(t)
    case MusicMoodEdit(t) => TextValue(t)
    case SfxPackEdit(t) => TextValue(t)
  }

  /** `setSettings({ ...settings, field: value })`: the edited field holds the
      new value and every other field keeps its old one. */
  function Apply(s: Settings, e: Edit): (r: Settings)
    ensures Get(r, Target(e)) == NewValue(e)
    ensures forall f :: f != Target(e) ==> Get(r, f) == Get(s, f)
  {
    match e
    case AspectEdit(a) => s.(aspect := a)
    case QualityEdit(q) => s.(quality := q)
    case StyleEdit(t) => s.(style := t)
    case CharacterNameEdit(t) => s.(characterName := t)
    case CharacterLockEdit(t) => s.(characterLock := t)
    case VoiceNoteEdit(t) => s.(voiceNote := t)
    case MusicMoodEdit(t) => s.(musicMood := t)
    case SfxPackEdit(t) => s.(sfxPack := t)
  }

  /** Of two edits of the same field, the later one wins. */
  lemma ApplyLastWins(s: Settings, e1: Edit, e2: Edit)
    requires Target(e1) == Target(e2)
    ensures Apply(Apply(s, e1), e2) == Apply(s, e2)
  {
    SettingsExtensional(Apply(Apply(s, e1), e2), Apply(s, e2));
  }

  /** Edits of different fields can be made in either order. */
  lemma ApplyCommutes(s: Settings, e1: Edit, e2: Edit)
    requires Target(e1) != Target(e2)
    ensures Apply(Apply(s, e1), e2) == Apply(Apply(s, e2), e1)
  {
    SettingsExtensional(Apply(Apply(s, e1), e2), Apply(Apply(s, e2), e1));
  }

  /** Writing the value a field already holds changes nothing, and an edit
      changes the record exactly when the field held another value. */
  lemma ApplyUnchanged(s: Settings, e: Edit)
    ensures Apply(s, e) == s <==> Get(s, Target(e)) == NewValue(e)
  {
    if Get(s, Target(e)) == NewValue(e) {
      SettingsExtensional(Apply(s, e), s);
    }
  }

  // ---------------------------------------------------------------- voice presets

  /** The three preset buttons. */
  datatype Voice = Sadaltager | Achird | Charon

  /** The key each button passes to `applyVoicePreset`. */
  function VoiceKey(v: Voice): string {
    match v
    case Sadaltager => "sadaltager"
    case Achird => "achird"
    case Charon => "charon"
  }

  /** Looking a key up in the preset dictionary: only the three keys have a
      preset. */
  function ParseVoice(key: string): (r: Option<Voice>)
    ensures r.Some? <==> key in {"sadaltager", "achird", "charon"}
    ensures r.Some? ==> VoiceKey(r.value) == key
  {
    if key == "sadaltager" then Some(Sadaltager)
    else if key == "achird" then Some(Achird)
    else if key == "charon" then Some(Charon)
    else None
  }

  /** Every button's key finds that button's preset. */
  lemma VoiceKeyRoundTrip(v: Voice)
    ensures ParseVoice(VoiceKey(v)) == Some(v)
  {
  }

  /** The text of each preset. */
  datatype PresetTable = PresetTable(sadaltager: string, achird: string, charon: string)

  function PresetText(table: PresetTable, v: Voice): string {
    match v
    case Sadaltager => table.sadaltager
    case Achird => table.achird
    case Charon => table.charon
  }

  /** `applyVoicePreset`: the voice instructions become the chosen preset's
      text and the seven other fields stay as they were. */
  function WithVoicePreset(s: Settings, table: PresetTable, v: Voice): (r: Settings)
    ensures r.voiceNote == PresetText(table, v)
    ensures forall f :: f != VoiceNoteField ==> Get(r, f) == Get(s, f)
  {
    Apply(s, VoiceNoteEdit(PresetText(table, v)))
  }

  /** Applying a preset is typing its text into the voice instructions, so a
      later edit of that field replaces it and applying it twice is applying
      it once. */
  lemma ApplyVoicePresetIsEdit(s: Settings, table: PresetTable, v: Voice, e: Edit)
    ensures WithVoicePreset(WithVoicePreset(s, table, v), table, v) == WithVoicePreset(s, table, v)
    ensures Target(e) == VoiceNoteField ==> Apply(WithVoicePreset(s, table, v), e) == Apply(s, e)
  {
    var p := VoiceNoteEdit(PresetText(table, v));
    ApplyLastWins(s, p, p);
    if Target(e) == VoiceNoteField {
      ApplyLastWins(s, p, e);
    }
  }

  // ---------------------------------------------------------------- commands

  /** The text between two consecutive commands. */
  const Separator: string := "\n\n---\n\n"

  /** One command per clip, built with the clip's 0-based position and the
      number of clips. */
  function Blocks(clips: seq<string>, settings: Settings): (r: seq<string>)
    ensures |r| == |clips|
    ensures forall i :: 0 <= i < |clips| ==> r[i] == BuildVeoCommand(clips[i], i, |clips|, settings)
  {
    seq(|clips|, i requires 0 <= i < |clips| => BuildVeoCommand(clips[i], i, |clips|, settings))
  }

  /** The `commands` memo: nothing for no clips, otherwise the commands of the
      clips in order, separated by a horizontal rule between blank lines. */
  function Commands(clips: seq<string>, settings: Settings): (r: string)
    ensures r == "" <==> clips == []
    ensures |clips| == 1 ==> r == BuildVeoCommand(clips[0], 0, 1, settings)
  {
    if |clips| == 0 then ""
    else
      CommandEnds(clips[0], 0, |clips|, settings);
      Join(Blocks(clips, settings), Separator)
  }

  /** Every command starts with `v` and ends with `o`, neither of which is in
      the separator. */
  lemma CommandEnds(segment: string, index: nat, total: nat, settings: Settings)
    ensures var c := BuildVeoCommand(segment, index, total, settings);
      c != [] && c[0] == 'v' && c[|c| - 1] == 'o'
  {
    TemplateEnds(CommandLines(segment, index, total, settings));
  }

  /** Texts that are non-empty, start with `v` and end with `o`. */
  predicate Framed(blocks: seq<string>) {
    forall i :: 0 <= i < |blocks| ==> blocks[i] != [] && blocks[i][0] == 'v' && blocks[i][|blocks[i]| - 1] == 'o'
  }

  lemma BlocksFramed(clips: seq<string>, settings: Settings)
    ensures Framed(Blocks(clips, settings))
  {
    var blocks := Blocks(clips, settings);
    forall i | 0 <= i < |blocks|
      ensures blocks[i] != [] && blocks[i][0] == 'v' && blocks[i][|blocks[i]| - 1] == 'o'
    {
      BlockEnds(clips, settings, i);
    }
  }

  lemma BlockEnds(clips: seq<string>, settings: Settings, i: nat)
    requires i < |clips|
    ensures var b := Blocks(clips, settings)[i]; b != [] && b[0] == 'v' && b[|b| - 1] == 'o'
  {
    CommandEnds(clips[i], i, |clips|, settings);
  }

  /** Joining framed texts with the separator gives a non-empty text holding
      one separator per seam besides those inside the texts. */
  lemma FramedJoin(blocks: seq<string>)
    requires blocks != [] && Framed(blocks)
    ensures Join(blocks, Separator) != []
    ensures CountOcc(Join(blocks, Separator), Separator) == |blocks| - 1 + SumOcc(blocks, Separator)
  {
    assert 'v' !in Separator && 'o' !in Separator;
    JoinContains(blocks, Separator, 0);
    CountOccJoin(blocks, Separator);
  }

  /** The command of every clip occurs in the text. */
  lemma CommandsHoldEveryClip(clips: seq<string>, settings: Settings, i: nat)
    requires i < |clips|
    ensures Contains(Commands(clips, settings), BuildVeoCommand(clips[i], i, |clips|, settings))
  {
    JoinContains(Blocks(clips, settings), Separator, i);
  }

  /** The text starts with the first clip's command and ends with the last
      clip's, for any number of clips. */
  lemma CommandsFirstLast(clips: seq<string>, settings: Settings)
    requires clips != []
    ensures var b := Blocks(clips, settings);
      && b[0] <= Commands(clips, settings)
      && EndsWith(Commands(clips, settings), b[|b| - 1])
  {
    JoinFirstLast(Blocks(clips, settings), Separator);
  }

  /** The commands are in clip order: any two consecutive commands appear with
      exactly one separator between them. */
  lemma CommandsInOrder(clips: seq<string>, settings: Settings, i: nat)
    requires i + 1 < |clips|
    ensures var b := Blocks(clips, settings);
      Contains(Commands(clips, settings), b[i] + Separator + b[i + 1])
  {
    JoinAdjacent(Blocks(clips, settings), Separator, i);
  }

  /** The text holds one separator between each two consecutive commands,
      besides any that the commands themselves hold. */
  lemma SeparatorCount(clips: seq<string>, settings: Settings)
    requires clips != []
    ensures CountOcc(Commands(clips, settings), Separator)
      == |clips| - 1 + SumOcc(Blocks(clips, settings), Separator)
  {
    BlocksFramed(clips, settings);
    FramedJoin(Blocks(clips, settings));
  }

  /** So when no command holds the separator, `n` clips give exactly `n - 1`
      separators. */
  lemma SeparatorCountExact(clips: seq<string>, settings: Settings)
    requires clips != []
    requires forall i :: 0 <= i < |clips| ==>
      CountOcc(BuildVeoCommand(clips[i], i, |clips|, settings), Separator) == 0
    ensures CountOcc(Commands(clips, settings), Separator) == |clips| - 1
  {
    SeparatorCount(clips, settings);
    SumOccZero(Blocks(clips, settings), Separator);
  }

  /** From script to commands: a script with `w` words gives one command per
      group of `n` words, and the command of clip `i` speaks exactly the words
      of group `i`, joined by single spaces and with double quotes made
      single. */
  lemma ScriptToCommands(script: string, n: nat, settings: Settings, i: nat)
    requires n >= 1
    requires i < |ScriptUtils.Clips(script, n)|
    ensures var clips := ScriptUtils.Clips(script, n);
      var words := ScriptUtils.Groups(ScriptUtils.Words(script), n);
      var said := DialogueLine(Sanitize(JoinSpace(words[i])));
      && |clips| == (|ScriptUtils.Words(script)| + n - 1) / n
      && clips[i] == JoinSpace(words[i])
      && Contains(BuildVeoCommand(clips[i], i, |clips|, settings), said)
      && Contains(Commands(clips, settings), said)
  {
    var clips := ScriptUtils.Clips(script, n);
    ScriptUtils.ClipsPartitionWords(script, n);
    CommandsHoldEveryClip(clips, settings, i);
    CommandContents(clips[i], i, |clips|, settings);
    ContainsTrans(Commands(clips, settings), BuildVeoCommand(clips[i], i, |clips|, settings),
      DialogueLine(Sanitize(clips[i])));
  }

  /** An empty script gives no clips and no command text. */
  lemma NoCommandsForEmptyScript(n: nat, settings: Settings)
    requires n >= 1
    ensures ScriptUtils.Clips("", n) == [] && Commands(ScriptUtils.Clips("", n), settings) == ""
  {
  }

  // ---------------------------------------------------------------- the component state

  /** The component's state: the script text and the settings record, with
      the number of words per clip and the preset texts fixed. */
  class AppState {
    var script: string
    var settings: Settings
    const wordsPerClip: nat
    const presets: PresetTable

    /** An empty script and the default settings: a 16:9 aspect ratio, 1080p,
        and the given default texts. */
    constructor(wordsPerClip: nat, presets: PresetTable, style: string, characterName: string,
                characterLock: string, voiceNote: string, musicMood: string, sfxPack: string)
      requires wordsPerClip >= 1
      ensures Valid()
      ensures this.wordsPerClip == wordsPerClip && this.presets == presets
      ensures script == ""
      ensures settings == Settings(Widescreen, FullHd, style, characterName, characterLock,
        voiceNote, musicMood, sfxPack)
      ensures CurrentClips() == [] && CurrentCommands() == ""
    {
      this.wordsPerClip := wordsPerClip;
      this.presets := presets;
      script := "";
      settings := Settings(Widescreen, FullHd, style, characterName, characterLock,
        voiceNote, musicMood, sfxPack);
      new;
      NoCommandsForEmptyScript(wordsPerClip, settings);
    }

    predicate Valid() {
      wordsPerClip >= 1
    }

    /** The `clips` memo: a function of the script alone. */
    function CurrentClips(): (r: seq<string>)
      requires Valid()
      reads this
      ensures r == [] <==> AllWs(script)
    {
      ScriptUtils.Clips(script, wordsPerClip)
    }

    /** The `commands` memo: a function of the clips and the settings alone. */
    function CurrentCommands(): (r: string)
      requires Valid()
      reads this
      ensures r == "" <==> AllWs(script)
    {
      Commands(CurrentClips(), settings)
    }

    /** Recomputing the clips runs the chunker on the current script. */
    method ChunkScript() returns (clips: seq<string>)
      requires Valid()
      ensures clips == CurrentClips()
      ensures clips == [] <==> AllWs(script)
    {
      clips := ScriptUtils.ChunkWordsToClips(script, wordsPerClip);
    }

    /** Typing into the script textarea replaces the script; the settings stay. */
    method SetScript(text: string)
      requires Valid()
      modifies this
      ensures Valid()
      ensures script == text && settings == old(settings)
      ensures CurrentClips() == ScriptUtils.Clips(text, wordsPerClip)
    {
      script := text;
    }

    /** A field handler replaces its field of the settings; the script, and so
        the clips, stay. */
    method Edit(e: Edit)
      requires Valid()
      modifies this
      ensures Valid()
      ensures settings == Apply(old(settings), e) && script == old(script)
      ensures Get(settings, Target(e)) == NewValue(e)
      ensures forall f :: f != Target(e) ==> Get(settings, f) == Get(old(settings), f)
      ensures CurrentClips() == old(CurrentClips())
    {
      settings := Apply(settings, e);
    }

    /** A preset button replaces the voice instructions with the preset's
        text; the other fields and the script stay. */
    method ApplyVoicePreset(v: Voice)
      requires Valid()
      modifies this
      ensures Valid()
      ensures settings == WithVoicePreset(old(settings), presets, v) && script == old(script)
      ensures settings.voiceNote == PresetText(presets, v)
      ensures forall f :: f != VoiceNoteField ==> Get(settings, f) == Get(old(settings), f)
    {
      settings := WithVoicePreset(settings, presets, v);
    }
  }
}
