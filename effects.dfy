/** The two "old TV" effects: add_tv_noise, which overwrites random rows with
    static, and simulate_tv_flicker, which dims a few random rows on every
    thirtieth call. Every esp_random() draw is read from a RandomSource at a
    cursor that each operation advances by the number of draws it makes. */
module Effects {
  import opened Display
  import opened Colors

  /*** add_tv_noise ***/

  /** Number of rows one add_tv_noise call overwrites. */
  const NoiseRows: nat := 20

  /** Random draws per noise row: one for the row, one per pixel. */
  const RowDraws: nat := W + 1

  /** The pixel add_tv_noise makes from one 32-bit draw: in three cases out of
      ten a white, grey or black speck, otherwise a dark colour whose channels
      are the draw modulo 8, 16 and 8. */
  function NoiseColor(noise: u32): (c: Color)
    ensures noise % 10 < 3 ==> c == WHITE || c == GRAY || c == BLACK
    ensures noise % 10 >= 3 ==>
              Red(c) == (noise % 8) as bv32 && Green(c) == (noise % 16) as bv32 && Blue(c) == (noise % 8) as bv32
  {
    if noise % 10 < 3 then
      if noise % 3 == 0 then WHITE
      else if noise % 3 == 1 then GRAY
      else BLACK
    else
      var c := Rgb565((noise % 8) as bv32, (noise % 16) as bv32, (noise % 8) as bv32);
      PackUnpack((noise % 8) as bv32, (noise % 16) as bv32, (noise % 8) as bv32);
      c
  }

  /** A speck's colour follows the draw modulo 3. */
  lemma NoiseSpeck(noise: u32)
    requires noise % 10 < 3
    ensures noise % 3 == 0 <==> NoiseColor(noise) == WHITE
    ensures noise % 3 == 1 <==> NoiseColor(noise) == GRAY
    ensures noise % 3 == 2 <==> NoiseColor(noise) == BLACK
  {
    NamedColors();
  }

  /** Outside the specks the static is dark: red equals blue, both below 8,
      and green is below 16. */
  lemma NoiseDim(noise: u32)
    requires noise % 10 >= 3
    ensures Red(NoiseColor(noise)) == Blue(NoiseColor(noise))
    ensures Red(NoiseColor(noise)) < 8 && Green(NoiseColor(noise)) < 16
  {
    var r: bv32 := (noise % 8) as bv32;
    var g: bv32 := (noise % 16) as bv32;
    assert r < 8 && g < 16;
  }

  /** All three specks, and the dark static, do occur. */
  lemma NoiseColorsOccur()
    ensures NoiseColor(0) == WHITE && NoiseColor(1) == GRAY && NoiseColor(2) == BLACK
    ensures NoiseColor(3) == Rgb565(3, 3, 3)
  {
    NoiseSpeck(0);
    NoiseSpeck(1);
    NoiseSpeck(2);
  }

  /** The row a draw selects, `esp_random() % DISPLAY_HEIGHT`. */
  function RandomRow(r: u32): (y: int)
    ensures 0 <= y < H
  {
    r % H
  }

  /** The W static pixels made from the draws that follow position `base`. */
  function NoisePixels(rnd: RandomSource, base: nat): (p: seq<Color>)
    ensures |p| == W
    ensures forall x :: 0 <= x < W ==> p[x] == NoiseColor(rnd(base + 1 + x))
  {
    seq(W, x requires 0 <= x < W => NoiseColor(rnd(base + 1 + x)))
  }

  /** The i-th noise row of a call whose draws start at `at`: its row number,
      then W pixels, each from the next draw. */
  function NoiseLine(rnd: RandomSource, at: nat, i: nat): (b: Blit)
    ensures b.IsRow(RandomRow(rnd(at + i * RowDraws)))
    ensures b.pixels == NoisePixels(rnd, at + i * RowDraws)
  {
    var base := at + i * RowDraws;
    var y := RandomRow(rnd(base));
    Blit(0, y, W, y + 1, NoisePixels(rnd, base))
  }

  /** The first n rows of a noise call. */
  function NoiseLines(rnd: RandomSource, at: nat, n: nat): (bs: seq<Blit>)
    ensures |bs| == n
    ensures forall i :: 0 <= i < n ==> bs[i] == NoiseLine(rnd, at, i)
  {
    seq(n, i requires 0 <= i < n => NoiseLine(rnd, at, i))
  }

  /** The inner loop of add_tv_noise: one draw per pixel of the row buffer,
      from the draws that follow the row's own. */
  method FillNoise(noiseBuf: array<Color>, rnd: RandomSource, base: nat)
    requires noiseBuf.Length == W
    modifies noiseBuf
    ensures noiseBuf[..] == NoisePixels(rnd, base)
  {
    var x := 0;
    while x < W
      invariant 0 <= x <= W
      invariant forall k :: 0 <= k < x ==> noiseBuf[k] == NoiseColor(rnd(base + 1 + k))
    {
      var noise := rnd(base + 1 + x);
      noiseBuf[x] := NoiseColor(noise);
      x := x + 1;
    }
  }

  /** add_tv_noise: fill a row buffer with static pixel by pixel, send it to
      a random row, twenty times. When the buffer cannot be allocated nothing
      is drawn and no random numbers are used. */
  method AddTvNoise(allocOk: bool, rnd: RandomSource, at: nat) returns (blits: seq<Blit>, next: nat)
    ensures !allocOk ==> blits == [] && next == at
    ensures allocOk ==> blits == NoiseLines(rnd, at, NoiseRows) && next == at + NoiseRows * RowDraws
  {
    if !allocOk {
      return [], at;
    }
    var noiseBuf := new Color[W];
    blits := [];
    next := at;
    var i := 0;
    while i < 20
      invariant 0 <= i <= NoiseRows
      invariant next == at + i * RowDraws
      invariant blits == NoiseLines(rnd, at, i)
    {
      var randomY := rnd(next) % H;
      FillNoise(noiseBuf, rnd, next);
      assert Blit(0, randomY, W, randomY + 1, noiseBuf[..]) == NoiseLine(rnd, at, i);
      blits := blits + [Blit(0, randomY, W, randomY + 1, noiseBuf[..])];
      next := next + RowDraws;
      i := i + 1;
    }
  }

  /** Every blit of a noise call is one full row of the panel. */
  lemma NoiseRowsOnPanel(rnd: RandomSource, at: nat, i: nat)
    requires i < NoiseRows
    ensures exists y :: 0 <= y < H && NoiseLines(rnd, at, NoiseRows)[i].IsRow(y)
  {
    var y := RandomRow(rnd(at + i * RowDraws));
    assert NoiseLines(rnd, at, NoiseRows)[i].IsRow(y);
  }

  /*** simulate_tv_flicker ***/

  /** Length of the flicker counter's cycle, and how often within it the
      screen flickers. */
  const CycleLength: int := 100
  const FlickerPeriod: int := 30

  /** Rows dimmed by one flicker. */
  const FlickerRows: nat := 5

  /** The counter after one more call. */
  function NextCycle(c: int): (c': int)
    ensures 0 <= c' < CycleLength
  {
    (c + 1) % CycleLength
  }

  /** Whether a call that leaves the counter at c flickers. */
  predicate Fires(c: int)
  {
    c % FlickerPeriod == 0
  }

  /** Within the cycle, exactly the counter values 0, 30, 60 and 90 flicker. */
  lemma FiresIff(c: int)
    requires 0 <= c < CycleLength
    ensures Fires(c) <==> c == 0 || c == 30 || c == 60 || c == 90
  {
    if Fires(c) {
      var q := c / 30;
      assert c == 30 * q;
      assert 0 <= q < 4;
    }
  }

  /** The counter after n calls from its initial value 0. */
  function CycleAfter(n: nat): (c: int)
    ensures 0 <= c < CycleLength
  {
    if n == 0 then 0 else NextCycle(CycleAfter(n - 1))
  }

  /** The counter counts calls modulo 100. */
  lemma {:induction false} CycleAfterMod(n: nat)
    ensures CycleAfter(n) == n % CycleLength
  {
    if n > 0 {
      CycleAfterMod(n - 1);
    }
  }

  /** Call number n (counting from 1) flickers exactly when n modulo 100 is
      0, 30, 60 or 90: three flickers thirty calls apart, then one ten calls
      later when the counter wraps. */
  lemma FlickerCalls(n: nat)
    ensures Fires(CycleAfter(n)) <==> var m := n % 100; m == 0 || m == 30 || m == 60 || m == 90
  {
    CycleAfterMod(n);
    FiresIff(CycleAfter(n));
  }

  /** The first flicker is on the thirtieth call. */
  lemma FirstFlicker(n: nat)
    requires 1 <= n <= 30
    ensures Fires(CycleAfter(n)) <==> n == 30
  {
    FlickerCalls(n);
  }

  /** The flicker colour: a very dim grey when the draw is odd, a dim grey
      when it is even. */
  function FlickerColor(r: u32): (c: Color)
    ensures c == Rgb565(2, 4, 2) || c == Rgb565(8, 16, 8)
    ensures c == Rgb565(2, 4, 2) <==> r % 2 == 1
  {
    if r % 2 != 0 then Rgb565(2, 4, 2) else Rgb565(8, 16, 8)
  }

  /** Both flicker colours are greys darker than the pattern's GRAY. */
  lemma FlickerDim(r: u32)
    ensures Red(FlickerColor(r)) == Blue(FlickerColor(r)) && Green(FlickerColor(r)) == 2 * Red(FlickerColor(r))
    ensures Red(FlickerColor(r)) < Red(GRAY) && Green(FlickerColor(r)) < Green(GRAY)
  {
    PackUnpack(2, 4, 2);
    PackUnpack(8, 16, 8);
    PackUnpack(15, 31, 15);
  }

  /** The five dimmed rows of a flicker whose draws start at `at`: one draw for
      the colour, then one per row. */
  function FlickerLines(rnd: RandomSource, at: nat): (bs: seq<Blit>)
    ensures |bs| == FlickerRows
    ensures forall i :: 0 <= i < FlickerRows ==>
              bs[i].IsRow(RandomRow(rnd(at + 1 + i))) &&
              bs[i].pixels == seq(W, x => FlickerColor(rnd(at)))
  {
    seq(FlickerRows, i requires 0 <= i < FlickerRows =>
      var y := RandomRow(rnd(at + 1 + i));
      Blit(0, y, W, y + 1, seq(W, x => FlickerColor(rnd(at)))))
  }

  /** The flicker itself: fill a row buffer with a dim grey and send it to five
      random rows. Nothing is drawn, and no random number used, when the
      buffer cannot be allocated. */
  method Flicker(allocOk: bool, rnd: RandomSource, at: nat) returns (blits: seq<Blit>, next: nat)
    ensures allocOk ==> blits == FlickerLines(rnd, at) && next == at + 1 + FlickerRows
    ensures !allocOk ==> blits == [] && next == at
  {
    blits := [];
    next := at;
    if allocOk {
      var flickerBuf := new Color[W];
      var flickerColor := if rnd(next) % 2 != 0 then Rgb565(2, 4, 2) else Rgb565(8, 16, 8);
      next := next + 1;
      var x := 0;
      while x < W
        invariant 0 <= x <= W
        invariant forall k :: 0 <= k < x ==> flickerBuf[k] == flickerColor
      {
        flickerBuf[x] := flickerColor;
        x := x + 1;
      }
      assert flickerBuf[..] == seq(W, x => FlickerColor(rnd(at)));
      var i := 0;
      while i < 5
        invariant 0 <= i <= FlickerRows
        invariant next == at + 1 + i
        invariant blits == FlickerLines(rnd, at)[..i]
      {
        var y := rnd(next) % H;
        next := next + 1;
        blits := blits + [Blit(0, y, W, y + 1, flickerBuf[..])];
        i := i + 1;
      }
    }
  }

  /** The state simulate_tv_flicker keeps between calls: its static counter. */
  class TvFlicker {
    var brightnessCycle: int

    /** The counter always lies within its cycle. */
    predicate Valid()
      reads this
    {
      0 <= brightnessCycle < CycleLength
    }

    /** The counter starts at 0. */
    constructor()
      ensures Valid() && brightnessCycle == 0
    {
      brightnessCycle := 0;
    }

    /** simulate_tv_flicker: advance the counter and, when it reaches a
        multiple of 30, flicker. */
    method Simulate(allocOk: bool, rnd: RandomSource, at: nat) returns (blits: seq<Blit>, next: nat)
      requires Valid()
      modifies this
      ensures Valid()
      ensures brightnessCycle == NextCycle(old(brightnessCycle))
      ensures Fires(brightnessCycle) && allocOk ==>
                blits == FlickerLines(rnd, at) && next == at + 1 + FlickerRows
      ensures !(Fires(brightnessCycle) && allocOk) ==> blits == [] && next == at
    {
      brightnessCycle := (brightnessCycle + 1) % 100;
      blits := [];
      next := at;
      if brightnessCycle % 30 == 0 {
        blits, next := Flicker(allocOk, rnd, at);
      }
    }
  }
}
