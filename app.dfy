/** app_main: show the test pattern once, then repeat forever: wait a random
    100 to 1999 ms, and pick one of the three effects with a second draw. One
    turn of that loop is modelled; the waits are returned, not performed. */
module App {
  import opened Display
  import opened Pattern
  import opened Effects

  /** The three things one turn of the loop can do. */
  datatype Effect = Noise | Flicker | Redraw

  /** The effect a draw selects: its last decimal digit 0..5 adds noise, 6 or 7
      flickers, 8 or 9 redraws the clean pattern. */
  function SelectEffect(r: u32): (e: Effect)
    ensures e == Noise <==> r % 10 < 6
    ensures e == Flicker <==> 6 <= r % 10 < 8
    ensures e == Redraw <==> 8 <= r % 10
  {
    var effect := r % 10;
    if effect < 6 then Noise
    else if effect < 8 then Flicker
    else Redraw
  }

  /** Of the ten possible digits, six select noise, two flicker and two the
      redraw: the 60/20/20 split of the source's comments. */
  lemma EffectShares()
    ensures (set d: u32 | d < 10 && SelectEffect(d) == Noise) == {0, 1, 2, 3, 4, 5}
    ensures (set d: u32 | d < 10 && SelectEffect(d) == Flicker) == {6, 7}
    ensures (set d: u32 | d < 10 && SelectEffect(d) == Redraw) == {8, 9}
    ensures |{0, 1, 2, 3, 4, 5}| == 6 && |{6, 7}| == 2 && |{8, 9}| == 2
  {
    var noise := set d: u32 | d < 10 && SelectEffect(d) == Noise;
    assert forall d: u32 :: d in noise <==> d < 6;
  }

  /** The random wait before an effect, in milliseconds. */
  function Delay(r: u32): (ms: int)
    ensures 100 <= ms < 2000
  {
    100 + r % 1900
  }

  /** Every wait from 100 to 1999 ms occurs. */
  lemma DelayOnto(ms: int)
    requires 100 <= ms < 2000
    ensures Delay(ms - 100) == ms
  {
  }

  /** The fixed pause after each effect, in milliseconds. */
  const Pause: int := 50

  /** Start-up after the display is ready: draw the pattern once. */
  method Start(allocOk: bool) returns (blits: seq<Blit>)
    ensures blits == if allocOk then [Blit(0, 0, W, H, Frame())] else []
  {
    blits := DrawMonoscopePattern(allocOk);
  }

  /** One turn of the main loop. It draws the wait, then the effect, then runs
      the effect, which may draw more. `allocOk` says whether the effect's
      buffer allocation succeeds; `flicker` holds simulate_tv_flicker's
      counter. Returns the two waits, the blits sent and the next unused
      draw. */
  method Step(allocOk: bool, rnd: RandomSource, at: nat, flicker: TvFlicker)
    returns (delay: int, effect: Effect, blits: seq<Blit>, pause: int, next: nat)
    requires flicker.Valid()
    modifies flicker
    ensures flicker.Valid()
    ensures delay == Delay(rnd(at)) && 100 <= delay < 2000 && pause == Pause
    ensures effect == SelectEffect(rnd(at + 1))
    ensures effect == Noise ==>
              unchanged(flicker) &&
              if allocOk then blits == NoiseLines(rnd, at + 2, NoiseRows) && next == at + 2 + NoiseRows * RowDraws
              else blits == [] && next == at + 2
    ensures effect == Flicker ==>
              flicker.brightnessCycle == NextCycle(old(flicker.brightnessCycle)) &&
              if allocOk && Fires(flicker.brightnessCycle)
              then blits == FlickerLines(rnd, at + 2) && next == at + 3 + FlickerRows
              else blits == [] && next == at + 2
    ensures effect == Redraw ==>
              unchanged(flicker) && next == at + 2 &&
              blits == if allocOk then [Blit(0, 0, W, H, Frame())] else []
  {
    var randomDelay := 100 + rnd(at) % 1900;
    delay := randomDelay;
    var draw := rnd(at + 1);
    effect := SelectEffect(draw);
    next := at + 2;
    if draw % 10 < 6 {
      blits, next := AddTvNoise(allocOk, rnd, next);
    } else if draw % 10 < 8 {
      blits, next := flicker.Simulate(allocOk, rnd, next);
    } else {
      blits := DrawMonoscopePattern(allocOk);
    }
    pause := Pause;
  }
}
