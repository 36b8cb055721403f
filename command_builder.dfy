/** Turning one clip into one video-generation command: a progress label, a
    shot instruction chosen by the clip's position, the clip's text with its
    double quotes made single, and a fixed template holding the settings. */
module CommandBuilder {
  import opened Text
  import opened Types

  // ---------------------------------------------------------------- shot instruction

  /** The four camera directions a clip can get. */
  datatype Shot = Opening | Transition | Closing | Continuation

  /** Clip numbers that are multiples of this get a transition shot. */
  const TransitionEvery: nat := 5

  /** The priority chain: the first clip opens the scene; otherwise every fifth
      clip that is not the last transitions; otherwise the last clip closes;
      every other clip continues. The contract states each instruction on its
      own terms, without reference to the order of the chain. */
  function SelectShot(clipNumber: nat, total: nat): (r: Shot)
    ensures r == Opening <==> clipNumber == 1
    ensures r == Transition <==> clipNumber != 1 && clipNumber % TransitionEvery == 0 && clipNumber < total
    ensures r == Closing <==> clipNumber != 1 && clipNumber == total
    ensures r == Continuation <==>
      clipNumber != 1 && clipNumber != total && !(clipNumber % TransitionEvery == 0 && clipNumber < total)
  {
    if clipNumber == 1 then Opening
    else if clipNumber % TransitionEvery == 0 && clipNumber < total then Transition
    else if clipNumber == total then Closing
    else Continuation
  }

  /** The cases where the order of the chain matters: the first clip opens
      even when it is also the last, and a last clip that is a multiple of five
      closes rather than transitions. */
  lemma ShotRules()
    ensures SelectShot(1, 1) == Opening
    ensures SelectShot(5, 10) == Transition
    ensures SelectShot(10, 10) == Closing
    ensures SelectShot(5, 5) == Closing
  {
  }

  /** The number of clips among 1..m of a `total`-clip script that get `shot`. */
  function CountShots(shot: Shot, m: nat, total: nat): nat {
    if m == 0 then 0
    else CountShots(shot, m - 1, total) + (if SelectShot(m, total) == shot then 1 else 0)
  }

  lemma {:induction false} ShotTallyBefore(m: nat, total: nat)
    requires m < total
    ensures CountShots(Opening, m, total) == (if m >= 1 then 1 else 0)
    ensures CountShots(Transition, m, total) == m / TransitionEvery
    ensures CountShots(Closing, m, total) == 0
    ensures CountShots(Continuation, m, total) == (if m >= 1 then m - 1 - m / TransitionEvery else 0)
  {
    if m > 0 {
      ShotTallyBefore(m - 1, total);
    }
  }

  /** Over a whole script of `total` clips: exactly one clip opens, exactly one
      closes when there are at least two clips, (total - 1) / 5 clips
      transition, and the rest continue. */
  lemma ShotTally(total: nat)
    requires total >= 1
    ensures CountShots(Opening, total, total) == 1
    ensures CountShots(Closing, total, total) == (if total > 1 then 1 else 0)
    ensures CountShots(Transition, total, total) == (total - 1) / TransitionEvery
    ensures CountShots(Continuation, total, total) ==
      total - 1 - (total - 1) / TransitionEvery - (if total > 1 then 1 else 0)
  {
    ShotTallyBefore(total - 1, total);
  }

  /** The text of each camera direction. */
  const OpeningDirection: string := "SCENE START: Medium close-up shot (MCU) of the doctor from the waist up, centered in frame, looking directly into the camera with a warm, welcoming expression. The shot is stable, on a tripod. Start with a 1-second pause before he begins speaking."
  const TransitionDirection: string := "TRANSITION: Smooth, slow 1-second cross-dissolve to a slightly different angle. Now a medium shot (MS), showing the doctor from the hips up. He continues to speak directly to the camera. Maintain eye contact."
  const ClosingDirection: string := "SCENE END: Hold on a close-up shot of the doctor smiling warmly for 2 seconds after he finishes speaking. Slow 2-second fade to black."
  const ContinuationDirection: string := "CONTINUATION: Maintain the current shot. The doctor continues his delivery with natural, subtle hand gestures and empathetic facial expressions. Ensure seamless continuity from the previous clip."

  function ShotText(shot: Shot): string {
    match shot
    case Opening => OpeningDirection
    case Transition => TransitionDirection
    case Closing => ClosingDirection
    case Continuation => ContinuationDirection
  }

  // ---------------------------------------------------------------- sanitising

  /** `segment.replace(/"/g, "'")`: every double quote becomes a single quote;
      every other character, and the length, stay as they were. */
  function Sanitize(segment: string): (r: string)
    ensures |r| == |segment|
    ensures forall k :: 0 <= k < |r| ==>
      r[k] == (if segment[k] == '"' then '\'' else segment[k])
    ensures '"' !in r
  {
    if segment == [] then []
    else [if segment[0] == '"' then '\'' else segment[0]] + Sanitize(segment[1..])
  }

  /** Sanitising changes nothing exactly when there is no double quote, so
      sanitising twice is sanitising once. */
  lemma SanitizeFixedPoints(segment: string)
    ensures Sanitize(segment) == segment <==> '"' !in segment
    ensures Sanitize(Sanitize(segment)) == Sanitize(segment)
  {
    if '"' !in segment {
      assert forall k :: 0 <= k < |segment| ==> segment[k] != '"';
    }
  }

  // ---------------------------------------------------------------- rendering

  /** The progress marker `Clip ${clipNumber} of ${total}`. */
  function ProgressLabel(clipNumber: nat, total: nat): (r: string)
    ensures "Clip " <= r && |r| == 9 + |NatToString(clipNumber)| + |NatToString(total)|
  {
    "Clip " + NatToString(clipNumber) + " of " + NatToString(total)
  }

  /** The longest prefix of `s` made of decimal digits. */
  function LeadingDigits(s: string): string {
    if s != [] && IsDigit(s[0]) then [s[0]] + LeadingDigits(s[1..]) else []
  }

  lemma {:induction false} LeadingDigitsOf(digits: string, rest: string)
    requires forall k :: 0 <= k < |digits| ==> IsDigit(digits[k])
    ensures LeadingDigits(digits + " " + rest) == digits
  {
    if digits != [] {
      assert (digits + " " + rest)[1..] == digits[1..] + " " + rest;
      LeadingDigitsOf(digits[1..], rest);
    }
  }

  /** Distinct positions get distinct progress markers. */
  lemma ProgressLabelInjective(c1: nat, t1: nat, c2: nat, t2: nat)
    requires ProgressLabel(c1, t1) == ProgressLabel(c2, t2)
    ensures c1 == c2 && t1 == t2
  {
    var a1, a2 := NatToString(c1), NatToString(c2);
    var b1, b2 := NatToString(t1), NatToString(t2);
    var l := ProgressLabel(c1, t1);
    LabelParts(a1, b1);
    LabelParts(a2, b2);
    LeadingDigitsOf(a1, "of " + b1);
    LeadingDigitsOf(a2, "of " + b2);
    NatToStringInjective(c1, c2);
    NatToStringInjective(t1, t2);
  }

  /** Where the two numbers sit in a progress marker. */
  lemma LabelParts(a: string, b: string)
    ensures ("Clip " + a + " of " + b)[5..] == a + " " + ("of " + b)
    ensures ("Clip " + a + " of " + b)[9 + |a|..] == b
  {
    var l := "Clip " + a + " of " + b;
    assert l == "Clip " + (a + " " + ("of " + b));
  }

  // The template's lines, each named so that proofs can refer to a line
  // without spelling out its text.

  /** The first line of every command. */
  const Invocation: string := "veo3 generate --prompt \"\"\""
  const VideoHeader: string := "**VIDEO PROMPT**"
  const AudioHeader: string := "**AUDIO PROMPT (VEO3 NATIVE AUDIO GENERATION)**"
  /** The line that closes the quoted prompt. */
  const PromptClose: string := "\"\"\""
  const DurationFlag: string := "--duration 8s"
  /** The last line of every command. */
  const NativeAudioFlag: string := "--native_audio"

  function ProgressLine(clipNumber: nat, total: nat): string {
    "**Clip Progress:** " + ProgressLabel(clipNumber, total)
  }

  function CharacterLine(settings: Settings): string {
    "**Character:** " + settings.characterName + ". CONSISTENCY LOCK: " + settings.characterLock
  }

  function ActionLine(name: string, said: string): string {
    "**Action & Dialogue:** " + name + " says, \"" + said + "\""
  }

  function ShotLine(shot: Shot): string {
    "**Shot Type & Direction:** " + ShotText(shot)
  }

  function StyleLine(settings: Settings): string {
    "**Global Visual Style:** " + settings.style
  }

  function DialogueLine(said: string): string {
    "**Dialogue:** \"" + said + "\""
  }

  function VoiceLine(settings: Settings): string {
    "**Voice Instructions:** " + settings.voiceNote
  }

  function MusicLine(settings: Settings): string {
    "**Background Music:** " + settings.musicMood
  }

  function SfxLine(settings: Settings): string {
    "**Sound Effects:** " + settings.sfxPack
  }

  function AspectFlag(aspect: Aspect): string {
    "--aspect_ratio " + AspectText(aspect)
  }

  function ResolutionFlag(quality: Quality): string {
    "--resolution " + QualityText(quality)
  }

  /** The video half of the prompt, top to bottom: the invocation, the
      progress marker, the character, the action with the sanitised segment,
      the shot instruction chosen for the clip, and the style. */
  function VideoLines(segment: string, index: nat, total: nat, settings: Settings): seq<string> {
    [ Invocation,
      VideoHeader,
      ProgressLine(index + 1, total),
      CharacterLine(settings),
      ActionLine(settings.characterName, Sanitize(segment)),
      ShotLine(SelectShot(index + 1, total)),
      StyleLine(settings) ]
  }

  /** The audio half of the prompt, up to the line that closes it. */
  function AudioLines(segment: string, settings: Settings): seq<string> {
    [ AudioHeader,
      DialogueLine(Sanitize(segment)),
      VoiceLine(settings),
      MusicLine(settings),
      SfxLine(settings),
      PromptClose ]
  }

  /** The closing flags of every command: the aspect ratio, the resolution, a
      fixed duration of eight seconds and native audio. */
  function FlagLines(settings: Settings): seq<string> {
    [ AspectFlag(settings.aspect), ResolutionFlag(settings.quality), DurationFlag, NativeAudioFlag ]
  }

  /** The whole template, line by line. */
  function CommandLines(segment: string, index: nat, total: nat, settings: Settings): (r: seq<string>)
    ensures |r| == 18 && r[0] == Invocation && r[7] == "" && r[17] == NativeAudioFlag
  {
    VideoLines(segment, index, total, settings) + [""] + AudioLines(segment, settings) + FlagLines(settings)
  }

  /** `buildVeoCommand`: the template literal opens and closes with a line
      break, and trimming it removes exactly those two, whatever the settings
      hold, leaving the template lines joined by line breaks. */
  function BuildVeoCommand(segment: string, index: nat, total: nat, settings: Settings): (r: string)
    ensures r == Join(CommandLines(segment, index, total, settings), "\n")
  {
    var lines := CommandLines(segment, index, total, settings);
    TrimTemplate(lines);
    Trim("\n" + Join(lines, "\n") + "\n")
  }

  /** Trimming removes only the framing line breaks of a template whose first
      line is the invocation and whose last line is the native-audio flag. */
  lemma TrimTemplate(lines: seq<string>)
    requires |lines| >= 2 && lines[0] == Invocation && lines[|lines| - 1] == NativeAudioFlag
    ensures Trim("\n" + Join(lines, "\n") + "\n") == Join(lines, "\n")
  {
    TemplateEnds(lines);
    TrimLineBreaks(Join(lines, "\n"));
  }

  lemma TemplateEnds(lines: seq<string>)
    requires |lines| >= 2 && lines[0] == Invocation && lines[|lines| - 1] == NativeAudioFlag
    ensures var body := Join(lines, "\n"); body != [] && body[0] == 'v' && body[|body| - 1] == 'o'
  {
    var body := Join(lines, "\n");
    JoinContains(lines, "\n", 0);
    JoinContains(lines, "\n", |lines| - 1);
    assert body[0] == Invocation[0] == 'v';
    assert body[|body| - 1] == NativeAudioFlag[13] == 'o';
  }

  lemma TrimLineBreaks(body: string)
    requires body != [] && body[0] == 'v' && body[|body| - 1] == 'o'
    ensures Trim("\n" + body + "\n") == body
  {
    TrimFramed('\n', body, '\n');
    assert "\n" + body + "\n" == ['\n'] + body + ['\n'];
  }

  /** Joining three groups of lines with a blank line between the first two. */
  lemma JoinGroups(v: seq<string>, a: seq<string>, f: seq<string>)
    requires v != [] && a != [] && f != []
    ensures Join(v + [""] + a + f, "\n")
      == Join(v, "\n") + "\n\n" + Join(a, "\n") + "\n" + Join(f, "\n")
  {
    JoinAppend(v + [""] + a, f, "\n");
    JoinAppend(v + [""], a, "\n");
    JoinAppend(v, [""], "\n");
    assert Join([""], "\n") == "";
    assert Join(v, "\n") + "\n" + "" + "\n" == Join(v, "\n") + "\n\n";
  }

  /** Every line of any of the three groups occurs in their join. */
  lemma JoinGroupsContain(v: seq<string>, a: seq<string>, f: seq<string>, x: string)
    requires x in v || x in a || x in f
    ensures Contains(Join(v + [""] + a + f, "\n"), x)
  {
    var lines := v + [""] + a + f;
    if x in v {
      var k :| 0 <= k < |v| && v[k] == x;
      assert lines[k] == x;
      JoinContains(lines, "\n", k);
    } else if x in a {
      var k :| 0 <= k < |a| && a[k] == x;
      assert lines[|v| + 1 + k] == x;
      JoinContains(lines, "\n", |v| + 1 + k);
    } else {
      var k :| 0 <= k < |f| && f[k] == x;
      assert lines[|v| + 1 + |a| + k] == x;
      JoinContains(lines, "\n", |v| + 1 + |a| + k);
    }
  }

  /** Every command is the video lines, a blank line, the audio lines and the
      flag lines, each group joined by line breaks. */
  lemma CommandParts(segment: string, index: nat, total: nat, settings: Settings)
    ensures BuildVeoCommand(segment, index, total, settings)
      == Join(VideoLines(segment, index, total, settings), "\n") + "\n\n"
         + Join(AudioLines(segment, settings), "\n") + "\n" + Join(FlagLines(settings), "\n")
  {
    JoinGroups(VideoLines(segment, index, total, settings), AudioLines(segment, settings), FlagLines(settings));
  }

  /** Every command holds the progress marker, the character line, the action
      line with the sanitised segment, the shot instruction chosen for the clip
      and the style; the dialogue line with the sanitised segment and the voice,
      music and sound-effect lines; and the aspect-ratio and resolution flags. */
  lemma CommandContents(segment: string, index: nat, total: nat, settings: Settings)
    ensures var r := BuildVeoCommand(segment, index, total, settings);
      var said := Sanitize(segment);
      && Contains(r, ProgressLine(index + 1, total))
      && Contains(r, CharacterLine(settings))
      && Contains(r, ActionLine(settings.characterName, said))
      && Contains(r, ShotLine(SelectShot(index + 1, total)))
      && Contains(r, StyleLine(settings))
      && Contains(r, DialogueLine(said))
      && Contains(r, VoiceLine(settings))
      && Contains(r, MusicLine(settings))
      && Contains(r, SfxLine(settings))
      && Contains(r, AspectFlag(settings.aspect))
      && Contains(r, ResolutionFlag(settings.quality))
  {
    var v, a, f := VideoLines(segment, index, total, settings), AudioLines(segment, settings), FlagLines(settings);
    var said := Sanitize(segment);
    JoinGroupsContain(v, a, f, ProgressLine(index + 1, total));
    JoinGroupsContain(v, a, f, CharacterLine(settings));
    JoinGroupsContain(v, a, f, ActionLine(settings.characterName, said));
    JoinGroupsContain(v, a, f, ShotLine(SelectShot(index + 1, total)));
    JoinGroupsContain(v, a, f, StyleLine(settings));
    JoinGroupsContain(v, a, f, DialogueLine(said));
    JoinGroupsContain(v, a, f, VoiceLine(settings));
    JoinGroupsContain(v, a, f, MusicLine(settings));
    JoinGroupsContain(v, a, f, SfxLine(settings));
    JoinGroupsContain(v, a, f, AspectFlag(settings.aspect));
    JoinGroupsContain(v, a, f, ResolutionFlag(settings.quality));
  }

  /** Every command starts with the invocation and ends with the aspect-ratio,
      resolution, duration and native-audio flags, one per line and in that
      order; the duration is eight seconds whatever the segment. */
  lemma CommandFrame(segment: string, index: nat, total: nat, settings: Settings)
    ensures var r := BuildVeoCommand(segment, index, total, settings);
      && Invocation <= r
      && EndsWith(r, AspectFlag(settings.aspect) + "\n" + ResolutionFlag(settings.quality)
           + "\n" + "--duration 8s" + "\n" + "--native_audio")
  {
    var lines := CommandLines(segment, index, total, settings);
    var front := VideoLines(segment, index, total, settings) + [""] + AudioLines(segment, settings);
    assert lines == front + FlagLines(settings);
    JoinFirstLast(lines, "\n");
    JoinEndsWithTail(front, FlagLines(settings), "\n");
    JoinFour(AspectFlag(settings.aspect), ResolutionFlag(settings.quality), DurationFlag, NativeAudioFlag, "\n");
  }

  /** Every command holds the shot instruction chosen for its clip. */
  lemma CommandShot(segment: string, index: nat, total: nat, settings: Settings)
    ensures Contains(BuildVeoCommand(segment, index, total, settings), ShotLine(SelectShot(index + 1, total)))
  {
    JoinGroupsContain(VideoLines(segment, index, total, settings), AudioLines(segment, settings),
      FlagLines(settings), ShotLine(SelectShot(index + 1, total)));
  }

  /** A command for the first clip opens the scene, and, in a script of more
      than one clip, the command for the last clip closes it. */
  lemma FirstAndLastCommands(segment: string, total: nat, settings: Settings)
    requires total >= 1
    ensures Contains(BuildVeoCommand(segment, 0, total, settings), ShotLine(Opening))
    ensures total > 1 ==> Contains(BuildVeoCommand(segment, total - 1, total, settings), ShotLine(Closing))
  {
    CommandShot(segment, 0, total, settings);
    if total > 1 {
      CommandShot(segment, total - 1, total, settings);
    }
  }
}
