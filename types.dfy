/** The settings record that the form edits and every command embeds. */
module Types {

  datatype Option<T> = None | Some(value: T)

  /** The three aspect ratios the form offers. */
  datatype Aspect = Widescreen | Vertical | Square

  /** The two output resolutions the form offers. */
  datatype Quality = FullHd | Hd

  /** The text of an aspect ratio, as it appears in the select box and in the
      `--aspect_ratio` flag. */
  function AspectText(a: Aspect): string {
    match a
    case Widescreen => "16:9"
    case Vertical => "9:16"
    case Square => "1:1"
  }

  /** The text of a resolution, as it appears in the select box and in the
      `--resolution` flag. */
  function QualityText(q: Quality): string {
    match q
    case FullHd => "1080p"
    case Hd => "720p"
  }

  /** The `as Settings["aspect"]` narrowing of a select value: only the three
      literal texts are aspect ratios. */
  function ParseAspect(s: string): (r: Option<Aspect>)
    ensures r.Some? <==> s in {"16:9", "9:16", "1:1"}
    ensures r.Some? ==> AspectText(r.value) == s
  {
    if s == "16:9" then Some(Widescreen)
    else if s == "9:16" then Some(Vertical)
    else if s == "1:1" then Some(Square)
    else None
  }

  /** The `as Settings["quality"]` narrowing of a select value. */
  function ParseQuality(s: string): (r: Option<Quality>)
    ensures r.Some? <==> s in {"1080p", "720p"}
    ensures r.Some? ==> QualityText(r.value) == s
  {
    if s == "1080p" then Some(FullHd)
    else if s == "720p" then Some(Hd)
    else None
  }

  /** Every aspect ratio is read back from its own text, so distinct ratios have
      distinct texts. */
  lemma AspectRoundTrip(a: Aspect)
    ensures ParseAspect(AspectText(a)) == Some(a)
  {
  }

  lemma QualityRoundTrip(q: Quality)
    ensures ParseQuality(QualityText(q)) == Some(q)
  {
  }

  /** The eight-field settings record: two closed enumerations and six free
      texts, any of which may be empty. */
  datatype Settings = Settings(
    aspect: Aspect,
    quality: Quality,
    style: string,
    characterName: string,
    characterLock: string,
    voiceNote: string,
    musicMood: string,
    sfxPack: string)
}
