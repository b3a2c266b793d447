/** The discrete choices of the `WaveAnimation` voice-activity indicator: how far
    the background lines sway, the colour pair of the radial glow, the pulse
    constants and stroke width of the ring, the icon in the middle, whether the
    frame loop starts at all, and the container size class. Each is a total
    function of the props; the canvas drawing itself is not modelled. */
module WaveAnimation {
  import opened JsRuntime

  datatype Size = Sm | Md | Lg
  datatype SpeakerType = Ai | User | Idle

  /** The component's props after destructuring with defaults. */
  datatype Props = Props(size: Size, isActive: bool, isSpeaking: bool, speakerType: SpeakerType)

  /** Props as a caller passes them: each may be left out. */
  function WithDefaults(size: Option<Size>, isActive: Option<bool>, isSpeaking: Option<bool>,
                        speakerType: Option<SpeakerType>): (p: Props)
    ensures size.None? ==> p.size == Md
    ensures isActive.None? ==> p.isActive
    ensures isSpeaking.None? ==> !p.isSpeaking
    ensures speakerType.None? ==> p.speakerType == Idle
    ensures size.Some? ==> p.size == size.value
    ensures isActive.Some? ==> p.isActive == isActive.value
    ensures isSpeaking.Some? ==> p.isSpeaking == isSpeaking.value
    ensures speakerType.Some? ==> p.speakerType == speakerType.value
  {
    Props(
      if size.Some? then size.value else Md,
      if isActive.Some? then isActive.value else true,
      if isSpeaking.Some? then isSpeaking.value else false,
      if speakerType.Some? then speakerType.value else Idle)
  }

  /** The session page renders `<WaveAnimation size="lg" isActive={true} />`. */
  const PageIndicator: Props := WithDefaults(Some(Lg), Some(true), None, None)

  /** The two families of background lines. */
  datatype Direction = Horizontal | Vertical

  /** The multiplier of the sine (horizontal lines) or cosine (vertical lines)
      offset: `5 * amplitudeFactor`, with `amplitudeFactor = isSpeaking ? 3 : 1`
      computed separately in each loop. */
  function FlowAmplitude(d: Direction, isSpeaking: bool): int
  {
    match d
    case Horizontal => 5 * (if isSpeaking then 3 else 1)
    case Vertical => 5 * (if isSpeaking then 3 else 1)
  }

  /** Both line families sway alike; speaking triples the sway, for any speaker. */
  lemma SpeakingTriplesSway(d: Direction, e: Direction, isSpeaking: bool)
    ensures FlowAmplitude(d, isSpeaking) == FlowAmplitude(e, isSpeaking)
    ensures FlowAmplitude(d, true) == 3 * FlowAmplitude(d, false) == 15
  {
  }

  /** A CSS `rgba(...)` colour. */
  datatype Rgba = Rgba(red: nat, green: nat, blue: nat, alpha: real)

  /** The colours at stops 0 and 0.7 of the radial glow. */
  datatype Glow = Glow(inner: Rgba, outer: Rgba)

  const Blue := Rgba(64, 196, 255, 0.2)
  const Green := Rgba(64, 255, 128, 0.2)

  /** The glow colour pair. */
  function GlowColors(isSpeaking: bool, speakerType: SpeakerType): Glow
  {
    if isSpeaking then
      match speakerType
      case Ai => Glow(Blue, Blue.(alpha := 0.05))
      case User => Glow(Green, Green.(alpha := 0.05))
      case Idle => Glow(Rgba(255, 255, 255, 0.15), Rgba(255, 255, 255, 0.05))
    else Glow(Rgba(255, 255, 255, 0.1), Rgba(255, 255, 255, 0.05))
  }

  predicate IsWhite(c: Rgba)
  {
    c.red == 255 && c.green == 255 && c.blue == 255
  }

  /** Each glow is one colour faded to alpha 0.05 at the outer stop. */
  lemma GlowIsOneColour(isSpeaking: bool, speakerType: SpeakerType)
    ensures GlowColors(isSpeaking, speakerType).outer
         == GlowColors(isSpeaking, speakerType).inner.(alpha := 0.05)
    ensures GlowColors(isSpeaking, speakerType).inner.alpha > 0.05
  {
  }

  /** The speaker only matters while speaking: silent, every speaker type gets the
      same dim white glow; speaking, the glow is neutral white exactly for `idle`,
      and brighter than the silent one. */
  lemma GlowFollowsSpeaker(isSpeaking: bool, t: SpeakerType, u: SpeakerType)
    ensures GlowColors(false, t) == GlowColors(false, u)
    ensures IsWhite(GlowColors(isSpeaking, t).inner) <==> !isSpeaking || t == Idle
    ensures GlowColors(true, Idle).inner.alpha > GlowColors(false, t).inner.alpha
    ensures GlowColors(true, Ai).inner.blue == 255 && GlowColors(true, User).inner.green == 255
  {
  }

  /** The four inner glow colours are pairwise distinct. */
  lemma InnerGlowsDistinct(t: SpeakerType)
    ensures GlowColors(true, Ai).inner != GlowColors(true, User).inner
    ensures GlowColors(true, Ai).inner != GlowColors(true, Idle).inner
    ensures GlowColors(true, User).inner != GlowColors(true, Idle).inner
    ensures GlowColors(true, Ai).inner != GlowColors(false, t).inner
    ensures GlowColors(true, User).inner != GlowColors(false, t).inner
    ensures GlowColors(true, Idle).inner != GlowColors(false, t).inner
  {
  }

  /** `pulseBase`. */
  function PulseBase(isSpeaking: bool): real
  {
    if isSpeaking then 0.7 else 0.5
  }

  /** The factor of the timestamp inside the ring's `Math.sin`. */
  function PulseFrequency(isSpeaking: bool): real
  {
    if isSpeaking then 0.002 else 0.001
  }

  /** The ring's `lineWidth`. */
  function RingLineWidth(isSpeaking: bool): int
  {
    if isSpeaking then 2 else 1
  }

  /** Speaking doubles the ring's stroke width and pulse frequency and raises its
      base brightness by 0.2. */
  lemma SpeakingStrengthensRing()
    ensures RingLineWidth(true) == 2 * RingLineWidth(false) == 2
    ensures PulseFrequency(true) == 2.0 * PulseFrequency(false) == 0.002
    ensures PulseBase(true) == PulseBase(false) + 0.2 == 0.7
  {
  }

  /** The glyph in the middle and its colour class. */
  datatype Icon = Volume2(colorClass: string) | Mic(colorClass: string)

  function IconFor(isSpeaking: bool, speakerType: SpeakerType): Icon
  {
    if speakerType == Ai && isSpeaking then Volume2("text-blue-300")
    else Mic(if isSpeaking then "text-green-300" else "text-white/30")
  }

  /** The speaker glyph shows exactly while the agent speaks; otherwise the
      microphone shows, green while anyone (even `idle`) speaks and dim when silent. */
  lemma IconChoice(isSpeaking: bool, speakerType: SpeakerType)
    ensures IconFor(isSpeaking, speakerType).Volume2? <==> speakerType == Ai && isSpeaking
    ensures IconFor(isSpeaking, speakerType).Mic? ==>
      IconFor(isSpeaking, speakerType).colorClass == (if isSpeaking then "text-green-300" else "text-white/30")
  {
  }

  /** Agent speaking, user speaking and silence are told apart by both the glow
      and the icon. */
  lemma SpeakersDistinguishable(t: SpeakerType)
    ensures GlowColors(true, Ai) != GlowColors(true, User)
    ensures IconFor(true, Ai) != IconFor(true, User)
    ensures GlowColors(true, Ai) != GlowColors(false, t) && GlowColors(true, User) != GlowColors(false, t)
    ensures IconFor(true, Ai) != IconFor(false, t) && IconFor(true, User) != IconFor(false, t)
  {
  }

  /** The effect's guards: no canvas, `isActive` false, or no 2D context, and the
      effect returns before requesting the first frame. */
  predicate StartsFrameLoop(canvasPresent: bool, isActive: bool, hasContext: bool)
  {
    canvasPresent && isActive && hasContext
  }

  lemma FrameLoopGuard(canvasPresent: bool, isActive: bool, hasContext: bool)
    ensures !canvasPresent ==> !StartsFrameLoop(canvasPresent, isActive, hasContext)
    ensures !isActive ==> !StartsFrameLoop(canvasPresent, isActive, hasContext)
    ensures !hasContext ==> !StartsFrameLoop(canvasPresent, isActive, hasContext)
    ensures StartsFrameLoop(true, true, true)
  {
  }

  /** `containerClasses`: each class with the condition that switches it on. */
  function ContainerClasses(size: Size): map<string, bool>
  {
    map["w-24 h-24" := size == Sm, "w-40 h-40" := size == Md, "w-64 h-64" := size == Lg]
  }

  /** The classes `cn` keeps: those whose condition holds. */
  function AppliedClasses(size: Size): set<string>
  {
    var m := ContainerClasses(size);
    set k | k in m && m[k]
  }

  function SizeClass(size: Size): string
  {
    match size
    case Sm => "w-24 h-24"
    case Md => "w-40 h-40"
    case Lg => "w-64 h-64"
  }

  /** Exactly one size class applies, and different sizes get different classes. */
  lemma OneSizeClass(size: Size, other: Size)
    ensures AppliedClasses(size) == {SizeClass(size)}
    ensures size != other ==> SizeClass(size) != SizeClass(other)
  {
    var m := ContainerClasses(size);
    assert m.Keys == {"w-24 h-24", "w-40 h-40", "w-64 h-64"};
    forall k | k in AppliedClasses(size)
      ensures k == SizeClass(size)
    {
    }
    assert SizeClass(size) in AppliedClasses(size);
  }

  /** The page never passes `isSpeaking` or `speakerType`, so its indicator is
      active, large and always in the silent look: dim glow, dim microphone, base sway. */
  lemma PageIndicatorIsSilent()
    ensures PageIndicator == Props(Lg, true, false, Idle)
    ensures GlowColors(PageIndicator.isSpeaking, PageIndicator.speakerType).inner == Rgba(255, 255, 255, 0.1)
    ensures IconFor(PageIndicator.isSpeaking, PageIndicator.speakerType) == Mic("text-white/30")
    ensures FlowAmplitude(Horizontal, PageIndicator.isSpeaking) == 5
  {
  }
}
