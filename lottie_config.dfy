/**
 * The Lottie player's configuration: the defaults, the merge of a partial
 * configuration over them, and the finalisation that picks the sprite
 * atlas size and the device pixel ratio when they are left to automatic
 * detection (the value 0).
 */
module LottieConfig {
  import opened Wrappers

  /** The largest sprite atlas the player uses, whatever the GPU allows. */
  const MaxSpriteAtlasSize: real := 8192.0

  datatype Color = Color(r: real, g: real, b: real, a: real)

  datatype Configuration = Configuration(
    loopAnimation: bool,
    spriteAtlasWidth: real,
    spriteAtlasHeight: real,
    gapSize: real,
    spritesCapacity: real,
    backgroundColor: Color,
    scaleMultiplier: real,
    devicePixelRatio: real,
    easingSteps: real,
    supportDeviceLost: bool)

  /** A partial configuration: a field is either given or absent. */
  datatype Partial = Partial(
    loopAnimation: Option<bool>,
    spriteAtlasWidth: Option<real>,
    spriteAtlasHeight: Option<real>,
    gapSize: Option<real>,
    spritesCapacity: Option<real>,
    backgroundColor: Option<Color>,
    scaleMultiplier: Option<real>,
    devicePixelRatio: Option<real>,
    easingSteps: Option<real>,
    supportDeviceLost: Option<bool>)

  /** DefaultConfiguration. */
  const Default := Configuration(false, 0.0, 0.0, 25.0, 64.0, Color(0.0, 0.0, 0.0, 1.0), 5.0, 0.0, 4.0, true)

  /** The partial configuration that gives no field. */
  const Empty := Partial(None, None, None, None, None, None, None, None, None, None)

  /** The partial configuration that gives every field of `c`. */
  function Full(c: Configuration): (p: Partial)
    ensures Merge(Default, p) == c
  {
    Partial(Some(c.loopAnimation), Some(c.spriteAtlasWidth), Some(c.spriteAtlasHeight), Some(c.gapSize),
            Some(c.spritesCapacity), Some(c.backgroundColor), Some(c.scaleMultiplier), Some(c.devicePixelRatio),
            Some(c.easingSteps), Some(c.supportDeviceLost))
  }

  /** `{ ...base, ...p }`: every field given in `p` wins, every other comes from `base`. */
  function Merge(base: Configuration, p: Partial): (c: Configuration) {
    Configuration(
      p.loopAnimation.GetOr(base.loopAnimation),
      p.spriteAtlasWidth.GetOr(base.spriteAtlasWidth),
      p.spriteAtlasHeight.GetOr(base.spriteAtlasHeight),
      p.gapSize.GetOr(base.gapSize),
      p.spritesCapacity.GetOr(base.spritesCapacity),
      p.backgroundColor.GetOr(base.backgroundColor),
      p.scaleMultiplier.GetOr(base.scaleMultiplier),
      p.devicePixelRatio.GetOr(base.devicePixelRatio),
      p.easingSteps.GetOr(base.easingSteps),
      p.supportDeviceLost.GetOr(base.supportDeviceLost))
  }

  /** Merging no field gives the base back. */
  lemma MergeEmpty(base: Configuration)
    ensures Merge(base, Empty) == base
  {
  }

  function Min(a: real, b: real): real { if a <= b then a else b }
  function Max(a: real, b: real): real { if a >= b then a else b }

  /** The system pixel ratio: the main thread's if given, else the window's if there is a window, else 1. */
  function SystemDpr(mainThreadDpr: Option<real>, windowDpr: Option<real>): (d: real)
    ensures mainThreadDpr.Some? ==> d == mainThreadDpr.value
    ensures mainThreadDpr.None? && windowDpr.Some? ==> d == windowDpr.value
    ensures mainThreadDpr.None? && windowDpr.None? ==> d == 1.0
  {
    if mainThreadDpr.Some? then mainThreadDpr.value
    else if windowDpr.Some? then windowDpr.value
    else 1.0
  }

  /**
   * UpdateConfiguration: the merge of `p` over the defaults; then, when
   * either atlas dimension is 0, both become min(maxTextureSize, 8192);
   * and when the pixel ratio is 0 it becomes the system ratio, raised to
   * at least 4 for an 8192 atlas and at least 2 otherwise. `windowDpr` is
   * None when there is no window.
   */
  function UpdateConfiguration(p: Partial, maxTextureSize: real, mainThreadDpr: Option<real>, windowDpr: Option<real>): (c: Configuration)
    ensures var m := Merge(Default, p);
      c.(spriteAtlasWidth := m.spriteAtlasWidth, spriteAtlasHeight := m.spriteAtlasHeight, devicePixelRatio := m.devicePixelRatio) == m
    ensures var m := Merge(Default, p);
      var optimal := Min(maxTextureSize, MaxSpriteAtlasSize);
      if m.spriteAtlasWidth == 0.0 || m.spriteAtlasHeight == 0.0 then
        c.spriteAtlasWidth == optimal && c.spriteAtlasHeight == optimal
      else
        c.spriteAtlasWidth == m.spriteAtlasWidth && c.spriteAtlasHeight == m.spriteAtlasHeight
    ensures var m := Merge(Default, p);
      var optimal := Min(maxTextureSize, MaxSpriteAtlasSize);
      var floor := if optimal >= MaxSpriteAtlasSize then 4.0 else 2.0;
      if m.devicePixelRatio == 0.0 then
        c.devicePixelRatio == Max(SystemDpr(mainThreadDpr, windowDpr), floor)
      else
        c.devicePixelRatio == m.devicePixelRatio
  {
    var config := Merge(Default, p);
    var optimal := Min(maxTextureSize, MaxSpriteAtlasSize);
    var sized :=
      if config.spriteAtlasHeight == 0.0 || config.spriteAtlasWidth == 0.0 then
        config.(spriteAtlasWidth := optimal, spriteAtlasHeight := optimal)
      else config;
    if sized.devicePixelRatio == 0.0 then
      var systemDpr := SystemDpr(mainThreadDpr, windowDpr);
      sized.(devicePixelRatio := if optimal >= MaxSpriteAtlasSize then Max(systemDpr, 4.0) else Max(systemDpr, 2.0))
    else sized
  }

  /** Every field other than the atlas size and pixel ratio is the given one, or the default when absent. */
  lemma GivenFieldsWin(p: Partial, maxTextureSize: real, mainThreadDpr: Option<real>, windowDpr: Option<real>)
    ensures var c := UpdateConfiguration(p, maxTextureSize, mainThreadDpr, windowDpr);
      c.loopAnimation == (if p.loopAnimation.Some? then p.loopAnimation.value else false)
      && c.gapSize == (if p.gapSize.Some? then p.gapSize.value else 25.0)
      && c.spritesCapacity == (if p.spritesCapacity.Some? then p.spritesCapacity.value else 64.0)
      && c.backgroundColor == (if p.backgroundColor.Some? then p.backgroundColor.value else Color(0.0, 0.0, 0.0, 1.0))
      && c.scaleMultiplier == (if p.scaleMultiplier.Some? then p.scaleMultiplier.value else 5.0)
      && c.easingSteps == (if p.easingSteps.Some? then p.easingSteps.value else 4.0)
      && c.supportDeviceLost == (if p.supportDeviceLost.Some? then p.supportDeviceLost.value else true)
  {
  }

  /** With nothing given, the atlas is automatic and the pixel ratio at least 2 (4 on an 8192 atlas). */
  lemma DefaultsResolved(maxTextureSize: real, mainThreadDpr: Option<real>, windowDpr: Option<real>)
    ensures var c := UpdateConfiguration(Empty, maxTextureSize, mainThreadDpr, windowDpr);
      c.spriteAtlasWidth == c.spriteAtlasHeight == Min(maxTextureSize, MaxSpriteAtlasSize)
      && c.devicePixelRatio >= 2.0
      && (maxTextureSize >= MaxSpriteAtlasSize ==> c.devicePixelRatio >= 4.0)
      && c.devicePixelRatio >= SystemDpr(mainThreadDpr, windowDpr)
  {
  }

  /**
   * Finalising is idempotent: a finalised configuration, given back in full,
   * comes out unchanged, provided the GPU reports a non-zero texture size.
   */
  lemma {:induction false} UpdateIdempotent(p: Partial, maxTextureSize: real, mainThreadDpr: Option<real>, windowDpr: Option<real>,
                                            maxTextureSize': real, mainThreadDpr': Option<real>, windowDpr': Option<real>)
    requires maxTextureSize != 0.0
    ensures var c := UpdateConfiguration(p, maxTextureSize, mainThreadDpr, windowDpr);
      UpdateConfiguration(Full(c), maxTextureSize', mainThreadDpr', windowDpr') == c
  {
    var c := UpdateConfiguration(p, maxTextureSize, mainThreadDpr, windowDpr);
    var m := Merge(Default, p);
    assert c.spriteAtlasWidth != 0.0 && c.spriteAtlasHeight != 0.0 by {
      if m.spriteAtlasWidth == 0.0 || m.spriteAtlasHeight == 0.0 {
        assert c.spriteAtlasWidth == Min(maxTextureSize, MaxSpriteAtlasSize);
      }
    }
    assert c.devicePixelRatio != 0.0;
  }
}
