/** The Game Boy audio unit (components/minigb_apu/minigb_apu.c): the fixed-point phase of each channel,
    the frequency sweep, and the register writes that must keep both in range.

    The device is built with 16000 samples a second. The mixing of the four channels is not modelled. */
module Apu {
  import opened Bytes

  const RATE: nat := 16000
  const MULT: nat := 105
  const REF: nat := RATE * MULT
  const SAMPLES: nat := 267
  const HIGH := 273
  const LOW := -273

  // ----- Phase arithmetic.

  /** How many times a counter passes REF when inc is added, and where it ends up. */
  function Steps(counter: nat, inc: nat): nat {
    if counter + inc == 0 then 0 else (counter + inc - 1) / REF
  }

  function Rest(counter: nat, inc: nat): nat {
    counter + inc - Steps(counter, inc) * REF
  }

  /** Conservation: nothing is rounded away, and the counter stays in range. */
  lemma PhaseConserved(counter: nat, inc: nat)
    requires counter <= REF
    ensures Steps(counter, inc) * REF + Rest(counter, inc) == counter + inc && 0 <= Rest(counter, inc) <= REF
  {
    DivMod(counter + inc - 1);
  }

  lemma DivMod(x: int)
    ensures x >= 0 ==> x / REF * REF <= x < x / REF * REF + REF
  {
  }

  /** The phase is determined by conservation alone. */
  lemma PhaseUnique(total: nat, steps: nat, rest: nat)
    requires steps * REF + rest == total && rest <= REF && (rest == 0 ==> steps == 0)
    ensures steps == if total == 0 then 0 else (total - 1) / REF
  {
    if total > 0 {
      DivMod(total - 1);
    }
  }

  /** Two stretches of time are as good as one. */
  lemma PhaseAddsUp(counter: nat, a: nat, b: nat)
    requires counter <= REF
    ensures Rest(counter, a) >= 0
    ensures Steps(counter, a + b) == Steps(counter, a) + Steps(Rest(counter, a), b)
    ensures Rest(counter, a + b) == Rest(Rest(counter, a), b)
  {
    PhaseConserved(counter, a);
    var mid := Rest(counter, a);
    PhaseConserved(mid, b);
    var s, t := Steps(counter, a), Steps(mid, b);
    RestPositive(counter, a);
    RestPositive(mid, b);
    assert (s + t) * REF == s * REF + t * REF;
    PhaseUnique(counter + a + b, s + t, Rest(mid, b));
  }

  lemma RestPositive(counter: nat, inc: nat)
    requires counter <= REF
    ensures Rest(counter, inc) == 0 ==> Steps(counter, inc) == 0 && counter + inc == 0
  {
    PhaseConserved(counter, inc);
    if counter + inc > 0 {
      DivMod(counter + inc - 1);
    }
  }

  /** The steps of n samples in a row, each advancing by inc. */
  function StepsOver(counter: nat, inc: nat, n: nat): nat
    requires counter <= REF
    decreases n
  {
    PhaseConserved(counter, inc);
    if n == 0 then 0 else Steps(counter, inc) + StepsOver(Rest(counter, inc), inc, n - 1)
  }

  function RestOver(counter: nat, inc: nat, n: nat): nat
    requires counter <= REF
    decreases n
  {
    PhaseConserved(counter, inc);
    if n == 0 then counter else RestOver(Rest(counter, inc), inc, n - 1)
  }

  /** No drift: however many samples are generated, the waveform has advanced exactly as far as if the
      whole time had been added at once. */
  lemma {:induction false} NoDrift(counter: nat, inc: nat, n: nat)
    requires counter <= REF
    ensures StepsOver(counter, inc, n) * REF + RestOver(counter, inc, n) == counter + n * inc
    ensures RestOver(counter, inc, n) <= REF
    ensures n > 0 ==> StepsOver(counter, inc, n) == Steps(counter, n * inc)
    decreases n
  {
    hide Steps, Rest;
    if n > 0 {
      var more := (n - 1) * inc;
      assert n * inc == inc + more;
      PhaseConserved(counter, inc);
      var mid := Rest(counter, inc);
      NoDrift(mid, inc, n - 1);
      PhaseAddsUp(counter, inc, more);
      NoTime(mid);
      hide *;
      TwoStretches(counter, inc, more, Steps(counter, inc), mid, StepsOver(mid, inc, n - 1), RestOver(mid, inc, n - 1));
      OneMore(counter, inc, n);
    }
  }

  lemma TwoStretches(counter: nat, inc: nat, more: nat, s: nat, mid: nat, t: nat, rest: nat)
    requires s * REF + mid == counter + inc && t * REF + rest == mid + more
    ensures (s + t) * REF + rest == counter + (inc + more)
  {
  }

  lemma OneMore(counter: nat, inc: nat, n: nat)
    requires n > 0 && counter <= REF
    ensures Rest(counter, inc) <= REF
    ensures StepsOver(counter, inc, n) == Steps(counter, inc) + StepsOver(Rest(counter, inc), inc, n - 1)
    ensures RestOver(counter, inc, n) == RestOver(Rest(counter, inc), inc, n - 1)
  {
    PhaseConserved(counter, inc);
    hide Steps, Rest;
  }

  lemma NoTime(counter: nat)
    requires counter <= REF
    ensures Steps(counter, 0) == 0
  {
    if counter > 0 {
      DivMod(counter - 1);
    }
  }

  // ----- One sample of a channel.

  const MAX_INC: nat := 220200960

  datatype Chan = Chan(
    enabled: bool, powered: bool, left: bool, right: bool,
    volume: nat, volumeInit: nat,
    freq: nat, freqCounter: nat, freqInc: nat, value: int,
    len: Length, env: Envelope, sweep: Sweep, wave: Shape)

  datatype Length = Length(load: nat, enabled: bool, counter: nat, inc: nat)

  datatype Envelope = Envelope(step: nat, up: bool, counter: nat, inc: nat)

  datatype Sweep = Sweep(rate: nat, shift: nat, down: bool, freq: nat, counter: nat, inc: nat)

  /** The duty pattern of a square channel and the shift register of the noise channel. */
  datatype Shape = Shape(duty: byte, position: nat, lfsr: nat, wide: bool, divider: nat)

  /** update_freq: the next step of the waveform within the sample, if there is one. */
  method UpdateFreq(inc: nat, counter: nat, pos: nat) returns (stepped: bool, counter': nat, pos': nat)
    requires pos <= inc <= MAX_INC && counter <= REF
    ensures stepped ==> counter' == 0 && pos' == pos + REF - counter && pos' < inc
    ensures !stepped ==> counter' == counter + (inc - pos) <= REF && pos' == inc
    ensures counter + (inc - pos) < 0x1_0000_0000
  {
    counter' := counter + (inc - pos);
    if counter' > REF {
      pos' := inc - (counter' - REF);
      counter' := 0;
      stepped := true;
    } else {
      pos' := inc;
      stepped := false;
    }
  }

  /** The time of a number of steps. */
  function Whole(steps: nat): nat {
    steps * REF
  }

  lemma WholeMore(steps: nat)
    ensures Whole(0) == 0 && Whole(steps + 1) == Whole(steps) + REF
  {
  }

  lemma NextPosition(start: nat, steps: nat)
    ensures ((start + steps) % 8 + 1) % 8 == (start + steps + 1) % 8
  {
  }

  /** The inner loop ends, whatever the increment: a step that leaves the position where it was empties a
      full counter. Its result is fixed by conservation. */
  lemma PhaseDone(counter: nat, inc: nat, steps: nat, rest: nat)
    requires counter <= REF && Whole(steps) + rest == counter + inc && rest <= REF && (steps > 0 ==> rest > 0)
    ensures steps == Steps(counter, inc) && rest == Rest(counter, inc)
  {
    PhaseUnique(counter + inc, steps, rest);
  }

  function DutyBit(duty: byte, position: nat): bool
    requires position < 8
  {
    if position == 0 then duty % 2 == 1 else DutyBit(duty / 2, position - 1)
  }

  function Level(high: bool): int {
    if high then HIGH else LOW
  }

  /** The phase loop of a square channel: the position moves by exactly the number of steps, and the
      sample is the level after the last one, since a partial step always weighs zero. */
  method SquarePhase(c: Chan) returns (c': Chan, sample: int)
    requires c.freqCounter <= REF && 0 < c.freqInc <= MAX_INC && c.wave.position < 8
    ensures var steps := Steps(c.freqCounter, c.freqInc);
      var position := (c.wave.position + steps) % 8;
      && c' == c.(freqCounter := Rest(c.freqCounter, c.freqInc), wave := c.wave.(position := position),
                  value := if steps == 0 then c.value else Level(DutyBit(c.wave.duty, position)))
      && sample == c'.value
      && c'.freqCounter <= REF
  {
    hide DutyBit, Level, Steps, Rest, Whole;
    WholeMore(0);
    var counter: nat, pos: nat, prev: nat := c.freqCounter, 0, 0;
    var position, value := c.wave.position, c.value;
    var more := true;
    ghost var steps := 0;
    sample := 0;
    while more
      invariant pos <= c.freqInc && prev <= pos && counter <= REF && sample == 0
      invariant counter + (if more then c.freqInc - pos else 0) + Whole(steps) == c.freqCounter + c.freqInc
      invariant more ==> prev == pos && (steps > 0 ==> pos < c.freqInc)
      invariant !more && steps > 0 ==> counter > 0
      invariant position == (c.wave.position + steps) % 8
      invariant value == if steps == 0 then c.value else Level(DutyBit(c.wave.duty, position))
      decreases more, c.freqInc - pos, counter
    {
      more, counter, pos := UpdateFreq(c.freqInc, counter, pos);
      if more {
        WholeMore(steps);
        NextPosition(c.wave.position, steps);
        position := (position + 1) % 8;
        PartialWeighsNothing(pos - prev, c.freqInc);
        sample := sample + (pos - prev) / c.freqInc * value;
        value := Level(DutyBit(c.wave.duty, position));
        prev := pos;
        steps := steps + 1;
      }
    }
    PhaseDone(c.freqCounter, c.freqInc, steps, counter);
    c' := c.(freqCounter := counter, value := value, wave := c.wave.(position := position));
    sample := sample + value;
  }

  lemma PartialWeighsNothing(part: nat, whole: nat)
    requires part < whole
    ensures part / whole == 0
  {
  }

  /** The phase loop of the wave channel. */
  method WavePhase(c: Chan) returns (c': Chan)
    requires c.freqCounter <= REF && 0 < c.freqInc <= MAX_INC && 0 <= c.value < 32
    ensures c' == c.(freqCounter := Rest(c.freqCounter, c.freqInc), value := (c.value + Steps(c.freqCounter, c.freqInc)) % 32)
    ensures c'.freqCounter <= REF
  {
    hide Steps, Rest, Whole;
    WholeMore(0);
    var counter: nat, pos: nat := c.freqCounter, 0;
    var value := c.value;
    var more := true;
    ghost var steps := 0;
    while more
      invariant pos <= c.freqInc && counter <= REF
      invariant counter + (if more then c.freqInc - pos else 0) + Whole(steps) == c.freqCounter + c.freqInc
      invariant more && steps > 0 ==> pos < c.freqInc
      invariant !more && steps > 0 ==> counter > 0
      invariant value == (c.value + steps) % 32
      decreases more, c.freqInc - pos, counter
    {
      more, counter, pos := UpdateFreq(c.freqInc, counter, pos);
      if more {
        WholeMore(steps);
        value := (value + 1) % 32;
        steps := steps + 1;
      }
    }
    PhaseDone(c.freqCounter, c.freqInc, steps, counter);
    c' := c.(freqCounter := counter, value := value);
  }

  function Lfsr(register: nat, value: int): nat {
    (register * 2 + (if value >= HIGH then 1 else 0)) % 65536
  }

  function NoiseLevel(register: nat, wide: bool): int {
    if wide then Level(register / 16384 % 2 == register / 8192 % 2) else Level(register / 64 % 2 == register / 32 % 2)
  }

  /** The register and level after a number of steps. */
  function NoiseAfter(register: nat, value: int, wide: bool, steps: nat): (nat, int)
    decreases steps
  {
    if steps == 0 then (register, value)
    else
      var (r, v) := NoiseAfter(register, value, wide, steps - 1);
      (Lfsr(r, v), NoiseLevel(Lfsr(r, v), wide))
  }

  lemma {:induction false} NoiseAddsUp(register: nat, value: int, wide: bool, s: nat, t: nat)
    ensures var mid := NoiseAfter(register, value, wide, s);
      NoiseAfter(register, value, wide, s + t) == NoiseAfter(mid.0, mid.1, wide, t)
    decreases t
  {
    hide Lfsr, NoiseLevel;
    if t > 0 {
      NoiseAddsUp(register, value, wide, s, t - 1);
    }
  }

  /** The phase loop of the noise channel. */
  method NoisePhase(c: Chan) returns (c': Chan, sample: int)
    requires c.freqCounter <= REF && 0 < c.freqInc <= MAX_INC
    ensures var after := NoiseAfter(c.wave.lfsr, c.value, c.wave.wide, Steps(c.freqCounter, c.freqInc));
      && c' == c.(freqCounter := Rest(c.freqCounter, c.freqInc), value := after.1, wave := c.wave.(lfsr := after.0))
      && sample == c'.value
      && c'.freqCounter <= REF
  {
    hide Lfsr, NoiseLevel, Steps, Rest, Whole;
    WholeMore(0);
    var counter: nat, pos: nat, prev: nat := c.freqCounter, 0, 0;
    var register, value := c.wave.lfsr, c.value;
    var more := true;
    ghost var steps := 0;
    sample := 0;
    while more
      invariant pos <= c.freqInc && prev <= pos && counter <= REF && sample == 0
      invariant counter + (if more then c.freqInc - pos else 0) + Whole(steps) == c.freqCounter + c.freqInc
      invariant more ==> prev == pos && (steps > 0 ==> pos < c.freqInc)
      invariant !more && steps > 0 ==> counter > 0
      invariant (register, value) == NoiseAfter(c.wave.lfsr, c.value, c.wave.wide, steps)
      decreases more, c.freqInc - pos, counter
    {
      more, counter, pos := UpdateFreq(c.freqInc, counter, pos);
      if more {
        WholeMore(steps);
        register := Lfsr(register, value);
        value := NoiseLevel(register, c.wave.wide);
        PartialWeighsNothing(pos - prev, c.freqInc);
        sample := sample + (pos - prev) / c.freqInc * value;
        prev := pos;
        steps := steps + 1;
      }
    }
    PhaseDone(c.freqCounter, c.freqInc, steps, counter);
    c' := c.(freqCounter := counter, value := value, wave := c.wave.(lfsr := register));
    sample := sample + value;
  }

  // ----- What every reachable state keeps.

  /** Channels 0 and 1 are square, 2 is the wave channel, 3 is noise. An enabled tone channel has a
      frequency below 2048, which is what set_note_freq divides by; channel 0 may hold a larger one only
      while it is disabled. */
  predicate Sound(c: Chan, i: nat) {
    && c.freqCounter <= REF && c.freq < 4096 && c.volume <= 15 && c.volumeInit <= 15
    && (i == 2 ==> c.volume <= 3 && c.volumeInit <= 3 && 0 <= c.value < 32)
    && (i != 3 && c.enabled ==> c.freq <= 2047)
    && (i == 1 || i == 2 ==> c.freq <= 2047)
    && (i == 3 ==> c.freq <= 15)
    && c.sweep.freq <= 2047 && c.sweep.rate <= 7 && c.sweep.shift <= 7 && c.sweep.inc <= 13440 && c.sweep.counter <= REF
    && c.len.load <= (if i == 2 then 255 else 63) && c.len.inc <= 26880 && c.len.counter <= REF
    && c.env.step <= 7 && c.env.inc <= 6720 && c.env.counter <= REF
    && c.wave.position < 8 && c.wave.divider <= 7
  }

  /** set_note_freq */
  function NoteInc(freq: nat): (inc: nat)
    requires freq <= 2047
    ensures 0 < inc && 2 * inc <= MAX_INC
  {
    NoteRange(2048 - freq);
    1048576 / (2048 - freq) * MULT
  }

  lemma MulKeepsOrder(x: int, y: int, d: nat)
    requires x <= y
    ensures x * d <= y * d
  {
  }

  lemma DivAtLeast(a: nat, d: nat, q: nat)
    requires d > 0 && q * d <= a
    ensures a / d >= q
  {
    var r := a / d;
    assert r * d + a % d == a;
    if r + 1 <= q {
      MulKeepsOrder(r + 1, q, d);
    }
  }

  lemma NoteRange(d: nat)
    requires 1 <= d <= 2048
    ensures 512 <= 1048576 / d <= 1048576
  {
    DivAtLeast(1048576, d, 512);
  }

  // ----- The slow parts of a channel.

  /** update_len, where it concerns the channel. */
  function LengthTick(c: Chan): (t: Chan)
    ensures t.freqCounter == c.freqCounter
  {
    if !c.len.enabled then c
    else if Expires(c) then c.(enabled := false, len := c.len.(counter := 0))
    else c.(len := c.len.(counter := c.len.counter + c.len.inc))
  }

  predicate Expires(c: Chan) {
    c.len.enabled && c.len.counter + c.len.inc > REF
  }

  /** The volume register after one tick, in eight bits. */
  function RawVolume(volume: nat, up: bool): nat {
    if up then volume + 1 else (volume + 255) % 256
  }

  /** The volume after one tick of the envelope. */
  function EnvelopeVolume(volume: nat, up: bool): (v: nat)
    ensures v <= 15
  {
    if RawVolume(volume, up) > 15 then 15 else RawVolume(volume, up)
  }

  /** What a tick is meant to do: one up or down, and not past either end. */
  function Saturating(volume: nat, up: bool): nat {
    if up then (if volume >= 15 then 15 else volume + 1) else (if volume == 0 then 0 else volume - 1)
  }

  /** The clamp works at both ends exactly when a silent channel is not counting down: then the eight-bit
      subtraction wraps first, and the volume jumps to the maximum. */
  lemma EnvelopeClampsExactlyWhen(volume: nat, up: bool)
    requires volume <= 15
    ensures EnvelopeVolume(volume, up) == Saturating(volume, up) <==> (up || volume > 0)
  {
  }

  /** update_env */
  function EnvTick(c: Chan): (t: Chan)
    ensures t.freqCounter == c.freqCounter
  {
    var counter := c.env.counter + c.env.inc;
    if counter <= REF then c.(env := c.env.(counter := counter))
    else if c.env.step == 0 then c.(env := c.env.(counter := counter - REF))
    else
      var raw := RawVolume(c.volume, c.env.up);
      c.(volume := EnvelopeVolume(c.volume, c.env.up),
         env := c.env.(counter := counter - REF, inc := if raw == 0 || raw == 15 then 0 else c.env.inc))
  }

  method UpdateEnv(c: Chan) returns (c': Chan)
    requires c.env.counter <= REF && c.env.inc <= 6720 && c.volume <= 15
    ensures c' == EnvTick(c)
  {
    var counter: nat, volume: nat, inc: nat := c.env.counter + c.env.inc, c.volume, c.env.inc;
    while counter > REF
      invariant counter > REF ==> counter == c.env.counter + c.env.inc && volume == c.volume && inc == c.env.inc
      invariant counter <= REF ==>
        c.(volume := volume, env := c.env.(counter := counter, inc := inc)) == EnvTick(c)
      decreases counter
    {
      if c.env.step != 0 {
        volume := RawVolume(volume, c.env.up);
        if volume == 0 || volume == 15 {
          inc := 0;
        }
        volume := if volume > 15 then 15 else volume;
      }
      counter := counter - REF;
    }
    c' := c.(volume := volume, env := c.env.(counter := counter, inc := inc));
  }

  function ShiftRight(x: nat, n: nat): (r: nat)
    ensures r <= x && (n > 0 ==> r <= x / 2)
  {
    if n == 0 then x else ShiftRight(x / 2, n - 1)
  }

  /** The frequency that a sweep step asks for, in sixteen bits. */
  function Swept(s: Sweep): nat {
    var inc := ShiftRight(s.freq, s.shift);
    (s.freq + (if s.down then (65536 - inc) % 65536 else inc)) % 65536
  }

  /** Within the range of a sweep the sixteen bits never overflow upwards past twice the frequency. */
  lemma SweptRange(s: Sweep)
    requires s.freq <= 2047 && s.shift > 0
    ensures Swept(s) < 4096 && (s.down ==> Swept(s) <= 2047)
  {
    hide ShiftRight;
    var inc := ShiftRight(s.freq, s.shift);
    assert inc <= s.freq / 2;
    SweptIs(s, inc);
  }

  lemma SweptIs(s: Sweep, inc: nat)
    requires s.freq <= 2047 && inc == ShiftRight(s.freq, s.shift)
    ensures Swept(s) == if s.down then s.freq - inc else s.freq + inc
  {
    hide ShiftRight;
    assert inc <= s.freq;
    if s.down && inc > 0 {
      assert (65536 - inc) % 65536 == 65536 - inc;
      assert s.freq + (65536 - inc) == 65536 + (s.freq - inc);
    }
  }

  /** update_sweep: a step that leaves the range of frequencies silences the channel, and so does a step
      that has a rate but no shift. */
  function SweepTick(c: Chan): (t: Chan)
    ensures t.freqCounter == c.freqCounter
  {
    var counter := c.sweep.counter + c.sweep.inc;
    var ticked := c.(sweep := c.sweep.(counter := if counter > REF then counter - REF else counter));
    if counter <= REF then ticked
    else if c.sweep.shift == 0 then if c.sweep.rate == 0 then ticked else ticked.(enabled := false)
    else if Swept(c.sweep) > 2047 then ticked.(enabled := false, freq := Swept(c.sweep))
    else
      ticked.(freq := Swept(c.sweep), freqInc := NoteInc(Swept(c.sweep)), sweep := ticked.sweep.(freq := Swept(c.sweep)))
  }

  method UpdateSweep(c: Chan) returns (c': Chan)
    requires c.sweep.counter <= REF && c.sweep.inc <= 13440 && c.sweep.freq <= 2047
    ensures c' == SweepTick(c)
  {
    hide ShiftRight, NoteInc;
    var enabled: bool, freq: nat, freqInc: nat := c.enabled, c.freq, c.freqInc;
    var base: nat, counter: nat := c.sweep.freq, c.sweep.counter + c.sweep.inc;
    while counter > REF
      invariant counter > REF ==> counter == c.sweep.counter + c.sweep.inc && base == c.sweep.freq
      invariant counter > REF ==> enabled == c.enabled && freq == c.freq && freqInc == c.freqInc
      invariant counter <= REF ==>
        SweepTick(c) == c.(enabled := enabled, freq := freq, freqInc := freqInc, sweep := c.sweep.(freq := base, counter := counter))
      decreases counter
    {
      if c.sweep.shift != 0 {
        var inc := ShiftRight(base, c.sweep.shift);
        if c.sweep.down {
          inc := (65536 - inc) % 65536;
        }
        freq := (base + inc) % 65536;
        if freq > 2047 {
          enabled := false;
        } else {
          freqInc, base := NoteInc(freq), freq;
        }
      } else if c.sweep.rate != 0 {
        enabled := false;
      }
      counter := counter - REF;
    }
    c' := c.(enabled := enabled, freq := freq, freqInc := freqInc, sweep := c.sweep.(freq := base, counter := counter));
  }

  // ----- A buffer of samples.

  datatype Voice = Pulse1 | Pulse2 | Wavetable | Noise {
    function Index(): nat {
      match this case Pulse1 => 0 case Pulse2 => 1 case Wavetable => 2 case Noise => 3
    }
  }

  /** The waveform of a channel a number of steps later. */
  function Stepped(c: Chan, v: Voice, steps: nat): Chan {
    match v
    case Wavetable => c.(value := (c.value + steps) % 32)
    case Noise =>
      var after := NoiseAfter(c.wave.lfsr, c.value, c.wave.wide, steps);
      c.(value := after.1, wave := c.wave.(lfsr := after.0))
    case _ =>
      var position := (c.wave.position + steps) % 8;
      c.(value := if steps == 0 then c.value else Level(DutyBit(c.wave.duty, position)), wave := c.wave.(position := position))
  }

  predicate SameWaveform(c: Chan, d: Chan) {
    c.value == d.value && c.wave == d.wave
  }

  lemma SteppedAddsUp(c: Chan, v: Voice, s: nat, t: nat)
    ensures SameWaveform(Stepped(c, v, s + t), Stepped(Stepped(c, v, s), v, t))
  {
    hide NoiseAfter, DutyBit, Level;
    match v
    case Wavetable => ModAdds(c.value + s, t, 32);
    case Noise => NoiseAddsUp(c.wave.lfsr, c.value, c.wave.wide, s, t);
    case _ =>
      ModAdds(c.wave.position + s, t, 8);
      PulseAddsUp(c, s, t, (c.wave.position + s + t) % 8);
  }

  lemma PulseAddsUp(c: Chan, s: nat, t: nat, position: nat)
    requires position == (c.wave.position + s + t) % 8 == ((c.wave.position + s) % 8 + t) % 8
    ensures SameWaveform(Stepped(c, Pulse1, s + t), Stepped(Stepped(c, Pulse1, s), Pulse1, t))
    ensures SameWaveform(Stepped(c, Pulse2, s + t), Stepped(Stepped(c, Pulse2, s), Pulse2, t))
  {
    hide DutyBit, Level;
  }

  lemma ModAdds(a: int, b: int, m: int)
    requires m > 0
    ensures (a % m + b) % m == (a + b) % m
  {
    var q := a / m;
    assert a == m * q + a % m;
    assert a + b == m * q + (a % m + b);
    ModShift(a % m + b, q, m);
  }

  lemma ModShift(x: int, q: int, m: int)
    requires m > 0
    ensures (m * q + x) % m == x % m
  {
    var r := x / m;
    assert x == m * r + x % m;
    assert m * q + x == m * (q + r) + x % m;
    ModIs(m * q + x, q + r, x % m, m);
  }

  lemma ModIs(x: int, q: int, r: int, m: int)
    requires m > 0 && x == m * q + r && 0 <= r < m
    ensures x % m == r
  {
    var d := x / m - q;
    assert x == m * (x / m) + x % m;
    assert m * d == r - x % m;
    if d > 0 {
      MulKeepsOrder(1, d, m);
    } else if d < 0 {
      MulKeepsOrder(d, -1, m);
    }
  }

  /** One audible sample: the phase advances by the increment, the waveform by the steps that takes. */
  function Sampled(c: Chan, v: Voice): Chan
    requires c.freqCounter <= REF
  {
    PhaseConserved(c.freqCounter, c.freqInc);
    Stepped(c, v, Steps(c.freqCounter, c.freqInc)).(freqCounter := Rest(c.freqCounter, c.freqInc))
  }

  /** The channel when its phase loop begins, after the ticks of this sample. */
  function Ticked(c: Chan, v: Voice): (t: Chan)
    ensures t.freqCounter == c.freqCounter
  {
    hide LengthTick, EnvTick, SweepTick;
    if v == Wavetable then LengthTick(c)
    else
      var e := EnvTick(LengthTick(c));
      if v == Pulse1 && e.volume != 0 then SweepTick(e) else e
  }

  /** The length counter lets this sample be played, and the envelope makes it heard. */
  predicate Plays(c: Chan) {
    LengthTick(c).enabled
  }

  predicate Audible(c: Chan, v: Voice) {
    Plays(c) && (v == Wavetable || EnvTick(LengthTick(c)).volume != 0)
  }

  /** One sample of a channel. */
  function SampleSpec(c: Chan, v: Voice): Chan
    requires c.freqCounter <= REF
  {
    hide Ticked, Sampled, Audible;
    if !Plays(c) then LengthTick(c) else if Audible(c, v) then Sampled(Ticked(c, v), v) else Ticked(c, v)
  }

  /** A channel in the middle of a buffer: whether it still plays, and whether its length has run out. */
  datatype Playing = Playing(chan: Chan, on: bool, expired: bool)

  predicate Ready(c: Chan, v: Voice) {
    Sound(c, v.Index()) && 0 < c.freqInc <= MAX_INC
  }

  lemma LengthKeepsReady(c: Chan, v: Voice)
    requires Ready(c, v)
    ensures Ready(LengthTick(c), v)
  {
  }

  lemma EnvKeepsReady(c: Chan, v: Voice)
    requires Ready(c, v) && v != Wavetable
    ensures Ready(EnvTick(c), v)
  {
    hide EnvelopeVolume;
  }

  lemma SweepKeepsReady(c: Chan)
    requires Ready(c, Pulse1)
    ensures Ready(SweepTick(c), Pulse1)
  {
    hide NoteInc, Swept;
    if c.sweep.shift > 0 {
      SweptRange(c.sweep);
    }
  }

  lemma TickKeepsReady(c: Chan, v: Voice)
    requires Ready(c, v)
    ensures Ready(LengthTick(c), v) && (v != Wavetable ==> Ready(EnvTick(c), v)) && (v == Pulse1 ==> Ready(SweepTick(c), v))
  {
    hide LengthTick, EnvTick, SweepTick, Ready;
    LengthKeepsReady(c, v);
    if v != Wavetable {
      EnvKeepsReady(c, v);
    }
    if v == Pulse1 {
      SweepKeepsReady(c);
    }
  }

  lemma StepKeepsReady(c: Chan, v: Voice)
    requires Ready(c, v)
    ensures Ready(Sampled(c, v), v) && Sampled(c, v).freqInc == c.freqInc
  {
    PhaseConserved(c.freqCounter, c.freqInc);
    hide Steps, Rest, NoiseAfter, DutyBit;
  }

  lemma SampleKeepsReady(c: Chan, v: Voice)
    requires Ready(c, v)
    ensures Ready(Ticked(c, v), v) && Ready(SampleSpec(c, v), v)
  {
    hide EnvTick, SweepTick, LengthTick, Ready, Sampled;
    TickKeepsReady(c, v);
    var l := LengthTick(c);
    TickKeepsReady(l, v);
    if v != Wavetable {
      TickKeepsReady(EnvTick(l), v);
    }
    StepKeepsReady(Ticked(c, v), v);
  }

  /** The first n samples of a buffer. */
  function RunOf(c: Chan, v: Voice, n: nat): (p: Playing)
    requires Ready(c, v)
    ensures Ready(p.chan, v)
    decreases n
  {
    if n == 0 then Playing(c, true, false)
    else
      var p := RunOf(c, v, n - 1);
      SampleKeepsReady(p.chan, v);
      if p.on then Playing(SampleSpec(p.chan, v), Plays(p.chan), Expires(p.chan)) else p
  }

  /** The time added up, and the samples heard, in the first n samples. */
  function Time(c: Chan, v: Voice, n: nat): nat
    requires Ready(c, v)
    decreases n
  {
    if n == 0 then 0
    else
      var p := RunOf(c, v, n - 1);
      Time(c, v, n - 1) + (if p.on && Audible(p.chan, v) then Ticked(p.chan, v).freqInc else 0)
  }

  function Heard(c: Chan, v: Voice, n: nat): nat
    requires Ready(c, v)
    decreases n
  {
    if n == 0 then 0
    else
      var p := RunOf(c, v, n - 1);
      Heard(c, v, n - 1) + (if p.on && Audible(p.chan, v) then 1 else 0)
  }

  /** What one sample does to phase and waveform, silent or not. */
  lemma SampleAdvances(c: Chan, v: Voice)
    requires Ready(c, v)
    ensures var inc := if Audible(c, v) then Ticked(c, v).freqInc else 0;
      && SampleSpec(c, v).freqCounter == Rest(c.freqCounter, inc)
      && SameWaveform(SampleSpec(c, v), Stepped(c, v, Steps(c.freqCounter, inc)))
    ensures v != Pulse1 ==> SampleSpec(c, v).freqInc == c.freqInc == Ticked(c, v).freqInc
  {
    hide Steps, Rest, Stepped, EnvTick, SweepTick, LengthTick, Audible, Ticked;
    SampleKeepsReady(c, v);
    NoTime(c.freqCounter);
    SteppedNothing(c, v);
    TickKeepsWaveform(c, v);
    var steps := Steps(c.freqCounter, Ticked(c, v).freqInc);
    SteppedAlike(Ticked(c, v), c, v, steps);
    SteppedElsewhere(Ticked(c, v), v, steps);
    PlaysWhenAudible(c, v);
  }

  lemma PlaysWhenAudible(c: Chan, v: Voice)
    ensures Audible(c, v) ==> Plays(c)
  {
  }

  lemma SteppedElsewhere(c: Chan, v: Voice, steps: nat)
    ensures Stepped(c, v, steps).freqInc == c.freqInc
  {
    hide NoiseAfter, DutyBit;
  }

  lemma SteppedNothing(c: Chan, v: Voice)
    requires Ready(c, v)
    ensures Stepped(c, v, 0) == c && Rest(c.freqCounter, 0) == c.freqCounter
  {
    NoTime(c.freqCounter);
  }

  /** Ticks leave phase and waveform alone. */
  predicate Unmoved(c: Chan, d: Chan) {
    SameWaveform(c, d) && c.freqCounter == d.freqCounter
  }

  lemma TicksDoNotMove(c: Chan)
    ensures Unmoved(LengthTick(c), c) && Unmoved(EnvTick(c), c) && Unmoved(SweepTick(c), c)
    ensures LengthTick(c).freqInc == c.freqInc == EnvTick(c).freqInc
  {
    hide NoteInc, Swept, EnvelopeVolume;
  }

  lemma TickKeepsWaveform(c: Chan, v: Voice)
    ensures Unmoved(Ticked(c, v), c) && Unmoved(LengthTick(c), c)
    ensures LengthTick(c).freqInc == c.freqInc && (v != Pulse1 ==> Ticked(c, v).freqInc == c.freqInc)
  {
    hide LengthTick, EnvTick, SweepTick;
    TicksDoNotMove(c);
    TicksDoNotMove(LengthTick(c));
    TicksDoNotMove(EnvTick(LengthTick(c)));
  }

  lemma SteppedAlike(c: Chan, d: Chan, v: Voice, steps: nat)
    requires SameWaveform(c, d)
    ensures SameWaveform(Stepped(c, v, steps), Stepped(d, v, steps))
  {
    hide NoiseAfter, DutyBit;
  }

  /** Nothing is lost over a buffer, whatever length, envelope and sweep do: phase and waveform are exactly
      where the whole time of the audible samples, added at once, would put them; and without a sweep that
      time is the number of samples heard times the increment. */
  lemma {:induction false} BufferKeepsTime(c: Chan, v: Voice, n: nat)
    requires Ready(c, v)
    ensures Kept(c, v, RunOf(c, v, n).chan, Time(c, v, n))
    ensures v != Pulse1 ==> RunOf(c, v, n).chan.freqInc == c.freqInc && Time(c, v, n) == Heard(c, v, n) * c.freqInc
    ensures Heard(c, v, n) <= n
    decreases n
  {
    hide Kept, SampleSpec, Ticked, Audible, Plays, Ready;
    if n == 0 {
      KeptAtFirst(c, v);
    } else {
      BufferKeepsTime(c, v, n - 1);
      var p := RunOf(c, v, n - 1);
      if p.on {
        KeptOnce(c, v, p.chan, Time(c, v, n - 1));
        SampleAdvances(p.chan, v);
        OnceMore(Heard(c, v, n - 1), c.freqInc);
      }
    }
  }

  /** From c to d, phase and waveform have advanced by this time, no more and no less. */
  predicate Kept(c: Chan, v: Voice, d: Chan, time: nat) {
    d.freqCounter == Rest(c.freqCounter, time) && SameWaveform(d, Stepped(c, v, Steps(c.freqCounter, time)))
  }

  lemma KeptAtFirst(c: Chan, v: Voice)
    requires Ready(c, v)
    ensures Kept(c, v, c, 0)
  {
    SteppedNothing(c, v);
    NoTime(c.freqCounter);
    hide Stepped;
  }

  lemma KeptOnce(c: Chan, v: Voice, d: Chan, time: nat)
    requires Ready(c, v) && Ready(d, v) && Kept(c, v, d, time)
    ensures Kept(c, v, SampleSpec(d, v), time + (if Audible(d, v) then Ticked(d, v).freqInc else 0))
  {
    hide Steps, Rest, Stepped, SampleSpec, Ticked, Audible, SameWaveform;
    var inc := if Audible(d, v) then Ticked(d, v).freqInc else 0;
    SampleAdvances(d, v);
    PhaseAddsUp(c.freqCounter, time, inc);
    var s, t := Steps(c.freqCounter, time), Steps(d.freqCounter, inc);
    SteppedAddsUp(c, v, s, t);
    SteppedAlike(d, Stepped(c, v, s), v, t);
    SameTwice(SampleSpec(d, v), Stepped(d, v, t), Stepped(Stepped(c, v, s), v, t));
    SameTwice(SampleSpec(d, v), Stepped(Stepped(c, v, s), v, t), Stepped(c, v, s + t));
  }

  lemma SameTwice(c: Chan, d: Chan, e: Chan)
    requires SameWaveform(c, d) && (SameWaveform(d, e) || SameWaveform(e, d))
    ensures SameWaveform(c, e)
  {
  }

  lemma OnceMore(n: nat, x: nat)
    ensures (n + 1) * x == n * x + x
  {
  }

  /** A channel that neither length, envelope nor sweep disturbs. */
  predicate Steady(c: Chan, v: Voice) {
    && c.enabled && !c.len.enabled
    && (v != Wavetable ==> c.volume > 0 && c.env.step == 0)
    && (v == Pulse1 ==> c.sweep.inc == 0)
  }

  /** Of such a channel every sample is heard, and the waveform follows the clock without drift. */
  lemma {:induction false} SteadyChannelIsHeard(c: Chan, v: Voice, n: nat)
    requires Ready(c, v) && Steady(c, v)
    ensures Heard(c, v, n) == n && Time(c, v, n) == n * c.freqInc
    ensures RunOf(c, v, n).on && Steady(RunOf(c, v, n).chan, v) && RunOf(c, v, n).chan.freqInc == c.freqInc
    decreases n
  {
    hide SampleSpec, Ticked, Audible, Plays, Steady, Ready;
    if n > 0 {
      SteadyChannelIsHeard(c, v, n - 1);
      var p := RunOf(c, v, n - 1);
      SteadySample(p.chan, v);
      OnceMore(n - 1, c.freqInc);
    }
  }

  lemma SteadySample(c: Chan, v: Voice)
    requires Ready(c, v) && Steady(c, v)
    ensures Plays(c) && Audible(c, v) && Ticked(c, v).freqInc == c.freqInc
    ensures Steady(SampleSpec(c, v), v) && SampleSpec(c, v).freqInc == c.freqInc
  {
    hide Steps, Rest, NoiseAfter, DutyBit, Swept, NoteInc;
  }

  // ----- The unit.

  datatype Unit = Unit(chans: seq<Chan>, volL: nat, volR: nat, mem: seq<byte>) {
    predicate Shaped() {
      |chans| == 4 && |mem| == 48
    }

    predicate Good() {
      Shaped() && forall i | 0 <= i < 4 :: Sound(chans[i], i)
    }

    function With(i: nat, c: Chan): Unit
      requires i < |chans|
    {
      this.(chans := chans[i := c])
    }
  }

  const SILENT := Chan(false, false, false, false, 0, 0, 0, 0, 0, 0,
                       Length(0, false, 0, 0), Envelope(0, false, 0, 0), Sweep(0, 0, false, 0, 0, 0), Shape(0, 0, 0, false, 0))

  function Flag(on: bool, weight: byte): byte {
    if on then weight else 0
  }

  /** The channel bits of register 0xFF26. */
  function Summary(chans: seq<Chan>): nat
    requires |chans| == 4
  {
    Flag(chans[3].enabled, 8) as int + Flag(chans[2].enabled, 4) + Flag(chans[1].enabled, 2) + Flag(chans[0].enabled, 1)
  }

  /** chan_enable, where it concerns the register. */
  function Summarised(u: Unit): Unit
    requires u.Shaped()
  {
    u.(mem := u.mem[22 := u.mem[22] / 128 * 128 + Summary(u.chans)])
  }

  function Enabled(u: Unit, i: nat, on: bool): Unit
    requires u.Shaped() && i < 4
  {
    Summarised(u.With(i, u.chans[i].(enabled := on)))
  }

  // ----- A callback.

  lemma {:induction false} PowersGrow(n: nat, m: nat)
    requires n <= m
    ensures Pow2(n) <= Pow2(m)
  {
    if n < m {
      PowersGrow(n, m - 1);
    }
  }

  lemma PowerBound(n: nat)
    requires n < 14
    ensures Pow2(n) <= 8192
  {
    PowersGrow(n, 13);
    assert Pow2(4) == 16 && Pow2(8) == 256 && Pow2(12) == 4096;
  }

  /** The divisor of the noise clock. */
  function NoiseDivisor(divider: nat, freq: nat): (d: nat)
    requires divider <= 7 && freq < 14
    ensures 8 <= d <= 917504
  {
    var base := if divider == 0 then 8 else 16 * divider;
    PowerBound(freq);
    MulKeepsOrder(8, base, Pow2(freq));
    MulKeepsOrder(base, 112, Pow2(freq));
    hide Pow2;
    base * Pow2(freq)
  }

  function NoiseInc(divider: nat, freq: nat): (inc: nat)
    requires divider <= 7 && freq < 14
    ensures 0 < inc <= MAX_INC
  {
    var d := NoiseDivisor(divider, freq);
    hide NoiseDivisor;
    DivAtLeast(4194304, d, 4);
    DivAtMost(4194304, d, 8);
    4194304 / d * MULT
  }

  lemma DivTimes(a: nat, d: nat)
    requires d > 0
    ensures a / d * d <= a
  {
  }

  lemma DivAtMost(a: nat, d: nat, k: nat)
    requires d >= k > 0
    ensures a / d * k <= a
  {
    DivTimes(a, d);
    MulKeepsOrder(k, d, a / d);
  }

  /** What the first lines of an update function leave, and whether it goes on. */
  function Started(c: Chan, v: Voice): (r: (Chan, bool))
    requires Sound(c, v.Index())
    ensures r.1 ==> Ready(r.0, v)
    ensures !r.1 ==> Sound(r.0, v.Index())
  {
    match v
    case Noise =>
      if c.freq >= 14 then (c.(enabled := false), false)
      else if !c.powered || !c.enabled then (c, false)
      else (c.(freqInc := NoiseInc(c.wave.divider, c.freq)), true)
    case Wavetable =>
      if !c.powered || !c.enabled || c.volume == 0 then (c, false) else (c.(freqInc := 2 * NoteInc(c.freq)), true)
    case _ =>
      if !c.powered || !c.enabled then (c, false) else (c.(freqInc := NoteInc(c.freq)), true)
  }

  /** One update function over a whole buffer. */
  function Buffered(u: Unit, v: Voice): (u': Unit)
    requires u.Good()
    ensures u'.Good()
  {
    var (c, on) := Started(u.chans[v.Index()], v);
    var p := if on then RunOf(c, v, SAMPLES) else Playing(c, false, false);
    AfterPlaying(u, v.Index(), p)
  }

  function AfterPlaying(u: Unit, i: nat, p: Playing): Unit
    requires u.Shaped() && i < 4
  {
    var w := u.With(i, p.chan);
    if p.expired then Summarised(w) else w
  }

  /** minigb_apu_audio_callback */
  function CallbackSpec(u: Unit): (u': Unit)
    requires u.Good()
    ensures u'.Good()
  {
    Buffered(Buffered(Buffered(Buffered(u, Pulse1), Pulse2), Wavetable), Noise)
  }

  // ----- Register writes.

  function EnvelopeInc(step: nat): (inc: nat)
    requires step < 8
    ensures 0 < inc <= 6720
  {
    [840, 6720, 3360, 2240, 1680, 1344, 1120, 960][step]
  }

  /** How long a length counter takes, in units that depend on what is left of it. */
  function LengthInc(left: nat): (inc: nat)
    requires 1 <= left
    ensures inc <= 26880
  {
    256 * REF / (RATE * left)
  }

  function SweepInc(rate: nat): (inc: nat)
    ensures inc <= 13440
  {
    if rate == 0 then 0 else 128 * REF / (rate * RATE)
  }

  /** The channel after chan_trigger, given the registers of its envelope and of the sweep. */
  function Triggered(c: Chan, i: nat, envelope: byte, sweep: byte): Chan
    requires i < 4 && c.len.load < (if i == 2 then 256 else 64)
  {
    var d := c.(enabled := true, volume := c.volumeInit,
                env := Envelope(envelope % 8, envelope / 8 % 2 == 1, 0, EnvelopeInc(envelope % 8)),
                len := c.len.(inc := LengthInc((if i == 2 then 256 else 64) - c.len.load), counter := 0));
    match i
    case 0 => d.(sweep := Sweep(sweep / 16 % 8, sweep % 8, sweep / 8 % 2 == 1, c.freq, REF, SweepInc(sweep / 16 % 8)))
    case 2 => d.(value := 0)
    case 3 => d.(value := LOW, wave := c.wave.(lfsr := 0xFFFF))
    case _ => d
  }

  function TriggerSpec(u: Unit, i: nat): Unit
    requires u.Good() && i < 4
  {
    var w := Enabled(u, i, true);
    w.With(i, Triggered(w.chans[i], i, u.mem[2 + 5 * i], u.mem[0]))
  }

  /** A volume register; on a playing channel it changes the volume at once. */
  function VolumeWritten(c: Chan, val: byte): Chan
    requires c.volume <= 15
  {
    var d := c.(volumeInit := val / 16, powered := val / 8 != 0);
    if !(d.powered && d.enabled) then d
    else
      var volume := if c.env.step == 0 && c.env.inc != 0 then (if val / 8 % 2 == 1 then c.volume + 1 else c.volume + 2)
                    else 16 - c.volume;
      d.(volume := volume % 16, env := c.env.(step := val % 8))
  }

  function DutyOf(val: byte): byte {
    if val / 64 == 0 then 0x10 else if val / 64 == 1 then 0x30 else if val / 64 == 2 then 0x3C else 0xCF
  }

  /** The duty pattern shares its storage with the low half of the noise register. */
  function DutyWritten(c: Chan, i: nat, val: byte): Chan {
    c.(len := c.len.(load := val % 64),
       wave := if i == 3 then c.wave.(lfsr := c.wave.lfsr / 256 * 256 + DutyOf(val)) else c.wave.(duty := DutyOf(val)))
  }

  /** The high frequency bits, the length flag and the trigger share a register; noise has no frequency there. */
  function ControlWritten(u: Unit, i: nat, val: byte): Unit
    requires u.Good() && i < 4
  {
    var c := u.chans[i];
    var w := u.With(i, c.(freq := if i == 3 then c.freq else c.freq % 256 + val % 8 * 256, len := c.len.(enabled := val / 64 % 2 == 1)));
    if val >= 128 then TriggerSpec(w, i) else w
  }

  function PanWritten(chans: seq<Chan>, val: byte): seq<Chan>
    requires |chans| == 4
  {
    [chans[0].(left := val / 16 % 2 == 1, right := val % 2 == 1),
     chans[1].(left := val / 32 % 2 == 1, right := val / 2 % 2 == 1),
     chans[2].(left := val / 64 % 2 == 1, right := val / 4 % 2 == 1),
     chans[3].(left := val / 128 % 2 == 1, right := val / 8 % 2 == 1)]
  }

  function PoweredOff(chans: seq<Chan>): seq<Chan>
    requires |chans| == 4
  {
    [chans[0].(enabled := false), chans[1].(enabled := false), chans[2].(enabled := false), chans[3].(enabled := false)]
  }

  /** The switch of minigb_apu_audio_write. */
  function RegisterSpec(u: Unit, at: nat, val: byte): Unit
    requires u.Good() && at < 48 && at != 22
  {
    var i := at / 5;
    if at == 2 || at == 7 || at == 17 then u.With(i, VolumeWritten(u.chans[i], val))
    else if at == 12 then u.With(2, u.chans[2].(volume := val / 32 % 4, volumeInit := val / 32 % 4))
    else if at == 1 || at == 6 || at == 16 then u.With(i, DutyWritten(u.chans[i], i, val))
    else if at == 11 then u.With(2, u.chans[2].(len := u.chans[2].len.(load := val)))
    else if at == 3 || at == 8 || at == 13 then u.With(i, u.chans[i].(freq := u.chans[i].freq / 256 * 256 + val))
    else if at == 10 then Enabled(u.With(2, u.chans[2].(powered := val >= 128)), 2, val >= 128)
    else if at == 4 || at == 9 || at == 14 || at == 19 then ControlWritten(u, i, val)
    else if at == 18 then
      u.With(3, u.chans[3].(freq := val / 16, wave := u.chans[3].wave.(wide := val / 8 % 2 == 0, divider := val % 8)))
    else if at == 20 then u.(volL := val / 16 % 8, volR := val % 8)
    else if at == 21 then u.(chans := PanWritten(u.chans, val))
    else u
  }

  /** minigb_apu_audio_write */
  function WriteSpec(u: Unit, addr: int, val: byte): Unit
    requires u.Good() && 0xFF10 <= addr <= 0xFF3F
  {
    var at := addr - 0xFF10;
    if at == 22 then
      if val >= 128 then u.(mem := u.mem[22 := 128])
      else u.(chans := PoweredOff(u.chans), mem := seq(22, _ => 0) + [0] + u.mem[23..])
    else if u.mem[22] == 0 then u
    else RegisterSpec(u.(mem := u.mem[at := val]), at, val)
  }

  lemma EnabledIsGood(u: Unit, i: nat, on: bool)
    requires u.Good() && i < 4 && (on && i != 3 ==> u.chans[i].freq <= 2047)
    ensures Enabled(u, i, on).Good()
  {
  }

  lemma TriggerIsGood(u: Unit, i: nat)
    requires u.Good() && i < 4 && (i != 3 ==> u.chans[i].freq <= 2047)
    ensures TriggerSpec(u, i).Good()
  {
    hide LengthInc, SweepInc, EnvelopeInc, Summary;
    EnabledIsGood(u, i, true);
  }

  lemma ControlIsGood(u: Unit, i: nat, val: byte)
    requires u.Good() && i < 4
    ensures ControlWritten(u, i, val).Good()
  {
    hide TriggerSpec;
    var c := u.chans[i];
    var w := u.With(i, c.(freq := if i == 3 then c.freq else c.freq % 256 + val % 8 * 256, len := c.len.(enabled := val / 64 % 2 == 1)));
    assert w.Good();
    if val >= 128 {
      TriggerIsGood(w, i);
    }
  }

  /** Every register write keeps the unit good: the range of every field, and no enabled tone channel with
      a frequency that would divide by zero. */
  lemma WriteKeepsGood(u: Unit, addr: int, val: byte)
    requires u.Good() && 0xFF10 <= addr <= 0xFF3F
    ensures WriteSpec(u, addr, val).Good()
  {
    hide ControlWritten, DutyOf, Summary;
    var at := addr - 0xFF10;
    if at == 22 {
      PoweringIsGood(u, val);
    } else if u.mem[22] != 0 {
      var w := u.(mem := u.mem[at := val]);
      assert w.Good();
      RegisterIsGood(w, at, val);
      hide RegisterSpec;
    }
  }

  lemma PoweringIsGood(u: Unit, val: byte)
    requires u.Good()
    ensures WriteSpec(u, 0xFF26, val).Good()
  {
  }

  lemma RegisterIsGood(u: Unit, at: nat, val: byte)
    requires u.Good() && at < 48 && at != 22
    ensures RegisterSpec(u, at, val).Good()
  {
    hide ControlWritten, DutyOf, Summary, Enabled, VolumeWritten, PanWritten;
    if at == 4 || at == 9 || at == 14 || at == 19 {
      ControlIsGood(u, at / 5, val);
    } else if at == 10 {
      var w := u.With(2, u.chans[2].(powered := val >= 128));
      assert w.Good();
      EnabledIsGood(w, 2, val >= 128);
    } else if at == 2 || at == 7 || at == 17 {
      VolumeIsSound(u.chans[at / 5], at / 5, val);
    } else if at == 21 {
      PanIsGood(u, val);
    }
  }

  lemma VolumeIsSound(c: Chan, i: nat, val: byte)
    requires Sound(c, i) && i != 2
    ensures Sound(VolumeWritten(c, val), i)
  {
  }

  lemma PanIsGood(u: Unit, val: byte)
    requires u.Good()
    ensures u.(chans := PanWritten(u.chans, val)).Good()
  {
  }

  // ----- Runs.

  datatype UnitEvent = Write(addr: int, val: byte) | Callback

  predicate Addressed(e: UnitEvent) {
    e.Write? ==> 0xFF10 <= e.addr <= 0xFF3F
  }

  function UnitStep(u: Unit, e: UnitEvent): (u': Unit)
    requires u.Good() && Addressed(e)
    ensures u'.Good()
  {
    match e
    case Write(addr, val) => WriteKeepsGood(u, addr, val); WriteSpec(u, addr, val)
    case Callback => CallbackSpec(u)
  }

  /** No run of register writes and callbacks leaves the good states, so none divides by zero. */
  function UnitAfter(u: Unit, es: seq<UnitEvent>): (u': Unit)
    requires u.Good() && forall e | e in es :: Addressed(e)
    ensures u'.Good()
  {
    if es == [] then u else UnitStep(UnitAfter(u, es[..|es| - 1]), es[|es| - 1])
  }

  // ----- The implementation.

  lemma {:induction false} RunStops(c: Chan, v: Voice, n: nat, m: nat)
    requires Ready(c, v) && n <= m && !RunOf(c, v, n).on
    ensures RunOf(c, v, m) == RunOf(c, v, n)
    decreases m
  {
    if n < m {
      RunStops(c, v, n, m - 1);
    }
  }

  lemma RunGoesOn(c: Chan, v: Voice, n: nat)
    requires Ready(c, v) && RunOf(c, v, n).on
    ensures var p := RunOf(c, v, n);
      && Ready(p.chan, v)
      && RunOf(c, v, n + 1) == Playing(SampleSpec(p.chan, v), Plays(p.chan), Expires(p.chan))
  {
  }

  lemma {:induction false} OnMeansNotExpired(c: Chan, v: Voice, n: nat)
    requires Ready(c, v)
    ensures RunOf(c, v, n).on ==> !RunOf(c, v, n).expired
    decreases n
  {
    if n > 0 {
      OnMeansNotExpired(c, v, n - 1);
      hide SampleSpec;
    }
  }

  class AudioUnit {
    var chans: seq<Chan>
    var volL: nat
    var volR: nat
    var mem: seq<byte>

    function Current(): Unit
      reads this
    {
      Unit(chans, volL, volR, mem)
    }

    /** chan_enable */
    method SetEnabled(i: nat, on: bool)
      requires Current().Shaped() && i < 4
      modifies this`chans, this`mem
      ensures Current() == Enabled(old(Current()), i, on)
    {
      chans := chans[i := chans[i].(enabled := on)];
      var flags := Flag(chans[3].enabled, 8) as int + Flag(chans[2].enabled, 4) + Flag(chans[1].enabled, 2) + Flag(chans[0].enabled, 1);
      mem := mem[22 := mem[22] / 128 * 128 + flags];
    }

    /** update_len */
    method UpdateLen(i: nat)
      requires Current().Shaped() && i < 4
      modifies this`chans, this`mem
      ensures Current() == LengthTicked(old(Current()), i)
    {
      var c := chans[i];
      if !c.len.enabled {
        return;
      }
      if c.len.counter + c.len.inc > REF {
        SetEnabled(i, false);
        chans := chans[i := chans[i].(len := c.len.(counter := 0))];
      } else {
        chans := chans[i := c.(len := c.len.(counter := c.len.counter + c.len.inc))];
      }
    }

    /** update_square */
    method UpdateSquare(ch2: bool)
      requires Current().Good()
      modifies this`chans, this`mem
      ensures Current() == Buffered(old(Current()), if ch2 then Pulse2 else Pulse1)
    {
      hide NoteInc, RunOf, SampleSpec, EnvTick, SweepTick, LengthTick, Expires, Sampled, Ready, DutyBit, Summary;
      ghost var before := Current();
      var i := if ch2 then 1 else 0;
      ghost var v := if ch2 then Pulse2 else Pulse1;
      if !chans[i].powered || !chans[i].enabled {
        return;
      }
      SquareStarts(chans[i], v);
      chans := chans[i := chans[i].(freqInc := NoteInc(chans[i].freq))];
      ghost var c := chans[i];
      RunBegins(c, v);
      for n := 0 to SAMPLES
        invariant Ready(c, v) && RunOf(c, v, n).on && Current() == before.With(i, RunOf(c, v, n).chan)
      {
        ghost var p := RunOf(c, v, n);
        RunGoesOn(c, v, n);
        SampleParts(p.chan, v);
        assert before.With(i, p.chan).With(i, LengthTick(p.chan)) == before.With(i, LengthTick(p.chan));
        UpdateLen(i);
        if !chans[i].enabled {
          RunStops(c, v, n + 1, SAMPLES);
          return;
        }
        var d := UpdateEnv(chans[i]);
        chans := chans[i := d];
        if d.volume != 0 {
          if !ch2 {
            d := UpdateSweep(d);
          }
          SampledIs(d, v);
          var sample;
          d, sample := SquarePhase(d);
          chans := chans[i := d];
        }
      }
      OnMeansNotExpired(c, v, SAMPLES);
    }

    /** update_wave */
    method UpdateWave()
      requires Current().Good()
      modifies this`chans, this`mem
      ensures Current() == Buffered(old(Current()), Wavetable)
    {
      hide NoteInc, RunOf, SampleSpec, LengthTick, Expires, Sampled, Ready;
      ghost var before, v := Current(), Wavetable;
      if !chans[2].powered || !chans[2].enabled || chans[2].volume == 0 {
        return;
      }
      SquareStarts(chans[2], v);
      chans := chans[2 := chans[2].(freqInc := 2 * NoteInc(chans[2].freq))];
      ghost var c := chans[2];
      RunBegins(c, v);
      for n := 0 to SAMPLES
        invariant Ready(c, v) && RunOf(c, v, n).on && Current() == before.With(2, RunOf(c, v, n).chan)
      {
        ghost var p := RunOf(c, v, n);
        RunGoesOn(c, v, n);
        WaveParts(p.chan);
        UpdateLen(2);
        if !chans[2].enabled {
          RunStops(c, v, n + 1, SAMPLES);
          return;
        }
        SampledIs(chans[2], v);
        var d := WavePhase(chans[2]);
        chans := chans[2 := d];
      }
      OnMeansNotExpired(c, v, SAMPLES);
    }

    /** update_noise: unusable clock settings silence the channel. */
    method UpdateNoise()
      requires Current().Good()
      modifies this`chans, this`mem
      ensures Current() == Buffered(old(Current()), Noise)
    {
      hide NoiseInc, RunOf, SampleSpec, EnvTick, LengthTick, Expires, Sampled, Ready, NoiseAfter, Sound, NoiseDivisor;
      ghost var before, v := Current(), Noise;
      if chans[3].freq >= 14 {
        chans := chans[3 := chans[3].(enabled := false)];
      }
      if !chans[3].powered || !chans[3].enabled {
        return;
      }
      NoiseStarts(chans[3]);
      chans := chans[3 := chans[3].(freqInc := NoiseInc(chans[3].wave.divider, chans[3].freq))];
      ghost var c := chans[3];
      RunBegins(c, v);
      for n := 0 to SAMPLES
        invariant Ready(c, v) && RunOf(c, v, n).on && Current() == before.With(3, RunOf(c, v, n).chan)
      {
        ghost var p := RunOf(c, v, n);
        RunGoesOn(c, v, n);
        SampleParts(p.chan, v);
        UpdateLen(3);
        if !chans[3].enabled {
          RunStops(c, v, n + 1, SAMPLES);
          return;
        }
        var d := UpdateEnv(chans[3]);
        chans := chans[3 := d];
        if d.volume != 0 {
          SampledIs(d, v);
          var sample;
          d, sample := NoisePhase(d);
          chans := chans[3 := d];
        }
      }
      OnMeansNotExpired(c, v, SAMPLES);
    }

    method Callback()
      requires Current().Good()
      modifies this`chans, this`mem
      ensures Current() == CallbackSpec(old(Current()))
    {
      hide Buffered;
      UpdateSquare(false);
      UpdateSquare(true);
      UpdateWave();
      UpdateNoise();
    }

    /** chan_trigger */
    method Trigger(i: nat)
      requires Current().Good() && i < 4
      modifies this`chans, this`mem
      ensures Current() == TriggerSpec(old(Current()), i)
    {
      hide EnvelopeInc, LengthInc, SweepInc, Summary;
      ghost var before := Current();
      SetEnabled(i, true);
      assert mem[2 + 5 * i] == before.mem[2 + 5 * i] && mem[0] == before.mem[0];
      var c := chans[i];
      c := c.(volume := c.volumeInit);
      var v := mem[2 + 5 * i];
      c := c.(env := Envelope(v % 8, v / 8 % 2 == 1, 0, EnvelopeInc(v % 8)));
      if i == 0 {
        var w := mem[0];
        var rate := w / 16 % 8;
        c := c.(sweep := Sweep(rate, w % 8, w / 8 % 2 == 1, c.freq, REF, SweepInc(rate)));
      }
      var lenMax := 64;
      if i == 2 {
        lenMax := 256;
        c := c.(value := 0);
      } else if i == 3 {
        c := c.(wave := c.wave.(lfsr := 0xFFFF), value := LOW);
      }
      c := c.(len := c.len.(inc := LengthInc(lenMax - c.len.load), counter := 0));
      chans := chans[i := c];
    }

    /** The cases of the volume registers. */
    method WriteVolume(i: nat, val: byte)
      requires Current().Good() && i < 4
      modifies this`chans
      ensures Current() == old(Current()).With(i, VolumeWritten(old(chans)[i], val))
    {
      var c := chans[i].(volumeInit := val / 16, powered := val / 8 != 0);
      if c.powered && c.enabled {
        var volume := c.volume;
        if c.env.step == 0 && c.env.inc != 0 {
          if val / 8 % 2 == 1 {
            volume := volume + 1;
          } else {
            volume := volume + 2;
          }
        } else {
          volume := 16 - volume;
        }
        c := c.(volume := volume % 16, env := c.env.(step := val % 8));
      }
      chans := chans[i := c];
    }

    /** The cases of the control registers, the noise channel entering halfway. */
    method WriteControl(i: nat, val: byte)
      requires Current().Good() && i < 4
      modifies this`chans, this`mem
      ensures Current() == ControlWritten(old(Current()), i, val)
    {
      hide TriggerSpec;
      if i != 3 {
        chans := chans[i := chans[i].(freq := chans[i].freq % 256 + val % 8 * 256)];
      }
      chans := chans[i := chans[i].(len := chans[i].len.(enabled := val / 64 % 2 == 1))];
      assert chans == old(chans)[i := chans[i]];
      if val >= 128 {
        Trigger(i);
      }
    }

    /** minigb_apu_audio_write */
    method Write(addr: int, val: byte)
      requires Current().Good() && 0xFF10 <= addr <= 0xFF3F
      modifies this
      ensures Current() == WriteSpec(old(Current()), addr, val)
    {
      hide RegisterSpec;
      var at := addr - 0xFF10;
      if at == 22 {
        mem := mem[22 := val / 128 * 128];
        if val < 128 {
          mem := seq(22, _ => 0) + mem[22..];
          chans := [chans[0].(enabled := false), chans[1].(enabled := false), chans[2].(enabled := false), chans[3].(enabled := false)];
        }
        return;
      }
      if mem[22] == 0 {
        return;
      }
      mem := mem[at := val];
      assert Current().Good();
      WriteRegister(at, val);
    }

    /** The switch of minigb_apu_audio_write. */
    method WriteRegister(at: nat, val: byte)
      requires Current().Good() && at < 48 && at != 22
      modifies this
      ensures Current() == RegisterSpec(old(Current()), at, val)
    {
      hide VolumeWritten, ControlWritten, Enabled;
      var i := at / 5;
      if at == 2 || at == 7 || at == 17 {
        WriteVolume(i, val);
      } else if at == 12 {
        chans := chans[2 := chans[2].(volume := val / 32 % 4, volumeInit := val / 32 % 4)];
      } else if at == 1 || at == 6 || at == 16 {
        chans := chans[i := DutyWritten(chans[i], i, val)];
      } else if at == 11 {
        chans := chans[2 := chans[2].(len := chans[2].len.(load := val))];
      } else if at == 3 || at == 8 || at == 13 {
        chans := chans[i := chans[i].(freq := chans[i].freq / 256 * 256 + val)];
      } else if at == 10 {
        chans := chans[2 := chans[2].(powered := val >= 128)];
        SetEnabled(2, val >= 128);
      } else if at == 4 || at == 9 || at == 14 || at == 19 {
        WriteControl(i, val);
      } else if at == 18 {
        chans := chans[3 := chans[3].(freq := val / 16, wave := chans[3].wave.(wide := val / 8 % 2 == 0, divider := val % 8))];
      } else if at == 20 {
        volL, volR := val / 16 % 8, val % 8;
      } else if at == 21 {
        chans := PanWritten(chans, val);
      }
    }

    /** The loops of minigb_apu_audio_init. */
    method WriteAll(addr: int, vals: seq<byte>)
      requires Current().Good() && 0xFF10 <= addr && addr + |vals| <= 0xFF40
      modifies this
      ensures Current() == UnitAfter(old(Current()), Writes(addr, vals))
    {
      hide WriteSpec;
      ghost var before, es := Current(), Writes(addr, vals);
      for n := 0 to |vals|
        invariant Current() == UnitAfter(before, es[..n])
      {
        assert es[..n + 1][..n] == es[..n];
        Write(addr + n, vals[n]);
      }
      assert es[..|vals|] == es;
    }

    /** minigb_apu_audio_init, on registers that start out clear. */
    constructor ()
      ensures Current() == Initial()
    {
      chans := [SILENT.(value := -1), SILENT.(value := -1), SILENT, SILENT];
      volL, volR := 0, 0;
      mem := seq(48, _ => 0);
      new;
      hide UnitAfter;
      assert Current() == Blank();
      WriteAll(0xFF10, INITIAL_REGISTERS);
      WriteAll(0xFF30, INITIAL_WAVE);
    }
  }

  function Writes(addr: int, vals: seq<byte>): (es: seq<UnitEvent>)
    requires 0xFF10 <= addr && addr + |vals| <= 0xFF40
    ensures |es| == |vals| && forall e | e in es :: Addressed(e)
  {
    seq(|vals|, i requires 0 <= i < |vals| => UnitEvent.Write(addr + i, vals[i]))
  }

  function Blank(): (u: Unit)
    ensures u.Good()
  {
    Unit([SILENT.(value := -1), SILENT.(value := -1), SILENT, SILENT], 0, 0, seq(48, _ => 0))
  }

  function Initial(): (u: Unit)
    ensures u.Good()
  {
    UnitAfter(UnitAfter(Blank(), Writes(0xFF10, INITIAL_REGISTERS)), Writes(0xFF30, INITIAL_WAVE))
  }

  const INITIAL_REGISTERS: seq<byte> :=
    [0x80, 0xBF, 0xF3, 0xFF, 0x3F, 0xFF, 0x3F, 0x00, 0xFF, 0x3F, 0x7F, 0xFF, 0x9F, 0xFF, 0x3F,
     0xFF, 0xFF, 0x00, 0x00, 0x3F, 0x77, 0xF3, 0xF1]

  const INITIAL_WAVE: seq<byte> :=
    [0xAC, 0xDD, 0xDA, 0x48, 0x36, 0x02, 0xCF, 0x16, 0x2C, 0x04, 0xE5, 0x2C, 0xAC, 0xDD, 0xDA, 0x48]

  /** update_len, the register included. */
  function LengthTicked(u: Unit, i: nat): Unit
    requires u.Shaped() && i < 4
  {
    var w := u.With(i, LengthTick(u.chans[i]));
    if Expires(u.chans[i]) then Summarised(w) else w
  }

  lemma RunBegins(c: Chan, v: Voice)
    requires Ready(c, v)
    ensures RunOf(c, v, 0) == Playing(c, true, false)
  {
  }

  /** The parts of one sample of a channel that has an envelope. */
  lemma SampleParts(c: Chan, v: Voice)
    requires Ready(c, v) && v != Wavetable
    ensures var l := LengthTick(c);
      var e := EnvTick(l);
      var s := if v == Pulse1 then SweepTick(e) else e;
      && Ready(l, v) && Ready(e, v) && Ready(s, v)
      && SampleSpec(c, v) == (if !l.enabled then l else if e.volume == 0 then e else Sampled(s, v))
      && (Expires(c) ==> !l.enabled) && Plays(c) == l.enabled
      && l.env.counter <= REF && l.env.inc <= 6720 && l.volume <= 15
      && e.sweep.counter <= REF && e.sweep.inc <= 13440 && e.sweep.freq <= 2047
  {
    hide EnvTick, SweepTick, Sampled;
    TickKeepsReady(c, v);
    TickKeepsReady(LengthTick(c), v);
    TickKeepsReady(EnvTick(LengthTick(c)), v);
    hide Ready;
  }

  lemma WaveParts(c: Chan)
    requires Ready(c, Wavetable)
    ensures var l := LengthTick(c);
      && Ready(l, Wavetable) && SampleSpec(c, Wavetable) == (if !l.enabled then l else Sampled(l, Wavetable))
      && (Expires(c) ==> !l.enabled) && Plays(c) == l.enabled
  {
    hide Sampled;
    TickKeepsReady(c, Wavetable);
    hide Ready;
  }

  lemma NoiseStarts(c: Chan)
    requires Sound(c, 3) && c.freq < 14
    ensures c.wave.divider <= 7 && Ready(c.(freqInc := NoiseInc(c.wave.divider, c.freq)), Noise)
  {
    hide NoiseInc;
  }

  lemma SquareStarts(c: Chan, v: Voice)
    requires Sound(c, v.Index()) && c.enabled && v != Noise
    ensures c.freq <= 2047 && Ready(c.(freqInc := NoteInc(c.freq)), v) && Ready(c.(freqInc := 2 * NoteInc(c.freq)), v)
  {
    hide NoteInc;
  }

  lemma SampledIs(c: Chan, v: Voice)
    requires Ready(c, v)
    ensures c.freqCounter <= REF && 0 < c.freqInc <= MAX_INC && c.wave.position < 8 && 0 <= Rest(c.freqCounter, c.freqInc)
    ensures v == Wavetable ==> 0 <= c.value < 32
    ensures var steps := Steps(c.freqCounter, c.freqInc);
      Sampled(c, v) == Stepped(c, v, steps).(freqCounter := Rest(c.freqCounter, c.freqInc))
  {
    PhaseConserved(c.freqCounter, c.freqInc);
  }

  // ----- When the envelope keeps within its range.

  /** A playing channel that is silent and would count down has stopped its envelope. */
  predicate CalmChannel(c: Chan) {
    c.enabled && c.powered && c.volume == 0 && c.env.step != 0 && !c.env.up ==> c.env.inc == 0
  }

  /** What the next trigger will find: a powered channel that starts silent counts up or not at all. */
  predicate CalmSettings(c: Chan, register: byte) {
    c.powered && c.volumeInit == 0 ==> register / 8 % 2 == 1 || register % 8 == 0
  }

  predicate Calm(u: Unit) {
    u.Good() && forall i | 0 <= i < 4 && i != 2 :: CalmChannel(u.chans[i]) && CalmSettings(u.chans[i], u.mem[2 + 5 * i])
  }

  /** The tick of a calm channel is clamped at both ends. */
  lemma CalmTickSaturates(c: Chan, v: Voice)
    requires Ready(c, v) && v != Wavetable && c.enabled && c.powered && CalmChannel(c)
    ensures EnvTick(c).volume == c.volume || EnvTick(c).volume == Saturating(c.volume, c.env.up)
    ensures EnvTick(c).volume != c.volume ==> c.env.step != 0 && c.env.counter + c.env.inc > REF
    ensures CalmChannel(EnvTick(c))
  {
    EnvelopeClampsExactlyWhen(c.volume, c.env.up);
  }

  predicate SameSettings(c: Chan, d: Chan) {
    c.powered == d.powered && c.volumeInit == d.volumeInit
  }

  lemma SampleIsCalm(c: Chan, v: Voice)
    requires Ready(c, v) && v != Wavetable && c.powered && CalmChannel(c)
    ensures CalmChannel(SampleSpec(c, v)) && SameSettings(SampleSpec(c, v), c)
  {
    var l := LengthTick(c);
    TickKeepsReady(c, v);
    SettingsStay(c);
    SettingsStay(l);
    SettingsStay(EnvTick(l));
    if l.enabled {
      CalmTickSaturates(l, v);
    }
    SampleParts(c, v);
    SampledIsCalm(SweepTick(EnvTick(l)), v);
    SampledIsCalm(EnvTick(l), v);
    hide EnvTick, SweepTick, LengthTick, Sampled, SampleSpec, Ready;
  }

  lemma SettingsStay(c: Chan)
    ensures SameSettings(LengthTick(c), c) && SameSettings(EnvTick(c), c) && SameSettings(SweepTick(c), c)
    ensures CalmChannel(c) ==> CalmChannel(LengthTick(c)) && CalmChannel(SweepTick(c))
  {
    hide NoteInc, Swept, EnvelopeVolume, RawVolume;
  }

  lemma SampledIsCalm(c: Chan, v: Voice)
    ensures Ready(c, v) && CalmChannel(c) ==> CalmChannel(Sampled(c, v))
    ensures Ready(c, v) ==> SameSettings(Sampled(c, v), c)
  {
    hide Steps, Rest, NoiseAfter, DutyBit;
  }

  lemma {:induction false} RunIsCalm(c: Chan, v: Voice, n: nat)
    requires Ready(c, v) && v != Wavetable && c.powered && CalmChannel(c)
    ensures CalmChannel(RunOf(c, v, n).chan) && SameSettings(RunOf(c, v, n).chan, c)
    decreases n
  {
    hide SampleSpec, CalmChannel, Ready;
    if n > 0 {
      RunIsCalm(c, v, n - 1);
      SampleIsCalm(RunOf(c, v, n - 1).chan, v);
    }
  }

  lemma BufferIsCalm(u: Unit, v: Voice)
    requires Calm(u)
    ensures Calm(Buffered(u, v))
  {
    hide NoteInc, NoiseInc, RunOf, Ready;
    var (c, on) := Started(u.chans[v.Index()], v);
    if on && v != Wavetable {
      RunIsCalm(c, v, SAMPLES);
    }
  }

  /** A volume register is written while its channel plays. */
  predicate Rewrites(u: Unit, e: UnitEvent)
    requires u.Good()
  {
    && e.Write? && u.mem[22] != 0 && (e.addr == 0xFF12 || e.addr == 0xFF17 || e.addr == 0xFF21)
    && e.val >= 8 && u.chans[(e.addr - 0xFF10) / 5].enabled
  }

  lemma WriteIsCalm(u: Unit, addr: int, val: byte)
    requires Calm(u) && 0xFF10 <= addr <= 0xFF3F && !Rewrites(u, Write(addr, val))
    ensures Calm(WriteSpec(u, addr, val))
  {
    WriteKeepsGood(u, addr, val);
    var at := addr - 0xFF10;
    if at == 22 {
      PoweringIsCalm(u, val);
    } else if u.mem[22] != 0 {
      RegisterIsCalm(u, at, val);
    }
    hide WriteSpec;
  }

  lemma PoweringIsCalm(u: Unit, val: byte)
    requires Calm(u) && WriteSpec(u, 0xFF26, val).Good()
    ensures Calm(WriteSpec(u, 0xFF26, val))
  {
  }

  /** The fields that calm is about. */
  predicate SameForCalm(c: Chan, d: Chan) {
    c.enabled == d.enabled && c.volume == d.volume && c.env == d.env && SameSettings(c, d)
  }

  lemma SameIsCalm(c: Chan, d: Chan, register: byte)
    requires SameForCalm(c, d) && CalmChannel(c) && CalmSettings(c, register)
    ensures CalmChannel(d) && CalmSettings(d, register)
  {
  }

  lemma VolumeIsCalm(c: Chan, val: byte)
    requires c.volume <= 15 && CalmChannel(c) && !(val >= 8 && c.enabled)
    ensures CalmChannel(VolumeWritten(c, val)) && CalmSettings(VolumeWritten(c, val), val)
  {
  }

  lemma TriggeredIsCalm(c: Chan, i: nat, envelope: byte, sweep: byte)
    requires i < 4 && c.len.load < (if i == 2 then 256 else 64) && CalmSettings(c, envelope)
    ensures CalmChannel(Triggered(c, i, envelope, sweep)) && CalmSettings(Triggered(c, i, envelope, sweep), envelope)
  {
    hide EnvelopeInc, LengthInc, SweepInc;
  }

  /** The channel c was triggered, after changes that do not matter here. */
  ghost predicate Retriggered(c: Chan, w: Chan, i: nat, envelope: byte, sweep: byte)
    requires i < 4 && i != 2
  {
    exists d: Chan | SameSettings(c, d) && d.len.load < 64 :: w == Triggered(d, i, envelope, sweep)
  }

  lemma ControlChannel(m: Unit, val: byte, i: nat)
    requires m.Good() && i < 4
    ensures var w := ControlWritten(m, i, val);
      && w.Shaped() && w.mem == m.mem[22 := w.mem[22]]
      && (i != 2 ==> SameForCalm(m.chans[i], w.chans[i]) || Retriggered(m.chans[i], w.chans[i], i, m.mem[2 + 5 * i], m.mem[0]))
      && forall j | 0 <= j < 4 && j != i :: w.chans[j] == m.chans[j]
  {
    hide Summary, Triggered;
    assert Sound(m.chans[i], i);
    var c := m.chans[i].(freq := if i == 3 then m.chans[i].freq else m.chans[i].freq % 256 + val % 8 * 256,
                         len := m.chans[i].len.(enabled := val / 64 % 2 == 1));
    var w := ControlWritten(m, i, val);
    if val >= 128 {
      assert w.chans[i] == Triggered(c.(enabled := true), i, m.mem[2 + 5 * i], m.mem[0]);
    }
    hide Sound;
  }

  /** What a register write does to channel i, where calm is concerned. */
  lemma RegisterChannel(m: Unit, at: nat, val: byte, i: nat)
    requires m.Good() && at < 48 && at != 22 && i < 4 && i != 2
    ensures var w := RegisterSpec(m, at, val);
      && w.Shaped() && w.mem[2 + 5 * i] == m.mem[2 + 5 * i]
      && (at == 2 + 5 * i ==> w.chans[i] == VolumeWritten(m.chans[i], val))
      && (at != 2 + 5 * i ==> SameForCalm(m.chans[i], w.chans[i]) || Retriggered(m.chans[i], w.chans[i], i, m.mem[2 + 5 * i], m.mem[0]))
  {
    hide DutyOf, Summary, Triggered, VolumeWritten, ControlWritten, Retriggered, Sound;
    if at == 4 || at == 9 || at == 14 || at == 19 {
      ControlChannel(m, val, at / 5);
    }
  }

  lemma RegisterIsCalm(u: Unit, at: nat, val: byte)
    requires Calm(u) && at < 48 && at != 22 && u.mem[22] != 0 && !Rewrites(u, Write(0xFF10 + at, val))
    requires u.(mem := u.mem[at := val]).Good() && RegisterSpec(u.(mem := u.mem[at := val]), at, val).Good()
    ensures Calm(RegisterSpec(u.(mem := u.mem[at := val]), at, val))
  {
    hide RegisterSpec, CalmChannel, CalmSettings, Triggered, VolumeWritten, Sound, SameForCalm;
    var m := u.(mem := u.mem[at := val]);
    var w := RegisterSpec(m, at, val);
    forall i | 0 <= i < 4 && i != 2 ensures CalmChannel(w.chans[i]) && CalmSettings(w.chans[i], w.mem[2 + 5 * i]) {
      var c := u.chans[i];
      RegisterChannel(m, at, val, i);
      if at == 2 + 5 * i {
        assert c.volume <= 15 by { VolumeInRange(u, i); }
        VolumeIsCalm(c, val);
      } else if SameForCalm(c, w.chans[i]) {
        SameIsCalm(c, w.chans[i], w.mem[2 + 5 * i]);
      } else {
        var d: Chan :| SameSettings(c, d) && d.len.load < 64 && w.chans[i] == Triggered(d, i, m.mem[2 + 5 * i], m.mem[0]);
        SettingsCarry(c, d, m.mem[2 + 5 * i]);
        TriggeredIsCalm(d, i, m.mem[2 + 5 * i], m.mem[0]);
      }
    }
  }

  lemma VolumeInRange(u: Unit, i: nat)
    requires u.Good() && i < 4
    ensures u.chans[i].volume <= 15
  {
  }

  lemma SettingsCarry(c: Chan, d: Chan, register: byte)
    requires SameSettings(c, d) && CalmSettings(c, register)
    ensures CalmSettings(d, register)
  {
  }

  predicate NeverRewrites(u: Unit, es: seq<UnitEvent>)
    requires u.Good() && forall e | e in es :: Addressed(e)
  {
    es == [] || (NeverRewrites(u, es[..|es| - 1]) && !Rewrites(UnitAfter(u, es[..|es| - 1]), es[|es| - 1]))
  }

  /** In every run in which no volume register is written while its channel plays, the envelope never
      leaves its range: every state stays calm, so every tick saturates. */
  lemma {:induction false} CalmWithoutRewrites(u: Unit, es: seq<UnitEvent>)
    requires Calm(u) && (forall e | e in es :: Addressed(e)) && NeverRewrites(u, es)
    ensures Calm(UnitAfter(u, es))
  {
    hide WriteSpec, CallbackSpec, CalmChannel, CalmSettings;
    if es != [] {
      var front, e := es[..|es| - 1], es[|es| - 1];
      CalmWithoutRewrites(u, front);
      CalmStep(UnitAfter(u, front), e);
    }
  }

  lemma CalmStep(u: Unit, e: UnitEvent)
    requires Calm(u) && Addressed(e) && !Rewrites(u, e)
    ensures Calm(UnitStep(u, e))
  {
    hide WriteSpec, Buffered, CalmChannel, CalmSettings;
    match e
    case Write(addr, val) => WriteIsCalm(u, addr, val);
    case Callback =>
      BufferIsCalm(u, Pulse1);
      BufferIsCalm(Buffered(u, Pulse1), Pulse2);
      BufferIsCalm(Buffered(Buffered(u, Pulse1), Pulse2), Wavetable);
      BufferIsCalm(Buffered(Buffered(Buffered(u, Pulse1), Pulse2), Wavetable), Noise);
  }

  // ----- A run in which the envelope does leave its range.

  /** Silent, counting down, and the envelope still running. */
  predicate Countdown(c: Chan) {
    c.enabled && c.powered && !c.len.enabled && c.volume == 0 && c.env.step == 1 && !c.env.up && c.env.inc == 840
  }

  function Waited(c: Chan, n: nat): Chan {
    c.(env := c.env.(counter := c.env.counter + 840 * n))
  }

  /** Such a channel stays silent until its counter is full... */
  lemma {:induction false} StaysSilent(c: Chan, n: nat)
    requires Ready(c, Pulse1) && Countdown(c) && c.env.counter + 840 * n <= REF
    ensures RunOf(c, Pulse1, n) == Playing(Waited(c, n), true, false)
    decreases n
  {
    hide SampleSpec, Plays, Expires, Ready;
    if n > 0 {
      StaysSilent(c, n - 1);
      SilentSample(Waited(c, n - 1));
      assert Waited(Waited(c, n - 1), 1) == Waited(c, n);
    }
  }

  lemma SilentSample(c: Chan)
    requires Ready(c, Pulse1) && Countdown(c) && c.env.counter + 840 <= REF
    ensures SampleSpec(c, Pulse1) == Waited(c, 1) && Plays(c) && !Expires(c)
  {
    hide Sampled, SweepTick;
  }

  /** ...and then jumps to full volume. */
  lemma JumpsToFull(c: Chan)
    requires Ready(c, Pulse1) && Countdown(c) && c.env.counter + 840 > REF
    ensures SampleSpec(c, Pulse1).volume == 15
  {
    hide Steps, Rest, DutyBit, Swept, NoteInc;
  }

  /** Callbacks leave channel 0 to its own buffer. */
  lemma CallbackFirst(u: Unit)
    requires u.Good()
    ensures CallbackSpec(u).chans[0] == Buffered(u, Pulse1).chans[0]
    ensures CallbackSpec(u).mem == u.mem[22 := CallbackSpec(u).mem[22]]
  {
    hide RunOf, Started, Summary;
  }

  lemma CountdownBuffer(u: Unit)
    requires u.Good() && Countdown(u.chans[0]) && u.chans[0].env.counter + 840 * SAMPLES <= REF
    ensures var d := CallbackSpec(u).chans[0];
      Countdown(d) && d.env.counter == u.chans[0].env.counter + 840 * SAMPLES
  {
    CallbackFirst(u);
    StaysSilent(Started(u.chans[0], Pulse1).0, SAMPLES);
    hide RunOf, NoteInc, CallbackSpec;
  }

  function Callbacks(n: nat): (es: seq<UnitEvent>)
    ensures |es| == n && forall e | e in es :: e == Callback
  {
    seq(n, _ => Callback)
  }

  lemma {:induction false} CountdownLasts(u: Unit, n: nat)
    requires u.Good() && Countdown(u.chans[0]) && u.chans[0].env.counter == 0 && n <= 7
    ensures var d := UnitAfter(u, Callbacks(n)).chans[0]; Countdown(d) && d.env.counter == 840 * SAMPLES * n
    decreases n
  {
    hide CallbackSpec;
    if n > 0 {
      CountdownLasts(u, n - 1);
      assert Callbacks(n)[..n - 1] == Callbacks(n - 1);
      CountdownBuffer(UnitAfter(u, Callbacks(n - 1)));
    }
  }

  /** Full volume, then a rewrite of the volume register that steps it to zero and asks for counting down. */
  const REWRITE: seq<UnitEvent> := [Write(0xFF12, 0xF0), Write(0xFF14, 0x80), Write(0xFF12, 0xF9)]

  lemma RewriteStartsCountdown(u: Unit)
    requires u.Good() && u.mem[22] != 0 && !u.chans[0].enabled
    ensures var w := UnitAfter(u, REWRITE); Countdown(w.chans[0]) && w.chans[0].env.counter == 0
  {
    hide WriteSpec, Countdown;
    var first := [Write(0xFF12, 0xF0)];
    var second := first + [Write(0xFF14, 0x80)];
    assert REWRITE == second + [Write(0xFF12, 0xF9)];
    OneMoreStep(u, [], Write(0xFF12, 0xF0));
    OneMoreStep(u, first, Write(0xFF14, 0x80));
    OneMoreStep(u, second, Write(0xFF12, 0xF9));
    assert [] + first == first;
    var a, b := UnitAfter(u, first), UnitAfter(u, second);
    hide UnitAfter;
    FullVolumeSet(u, a);
    TriggeredFull(a, b);
    SteppedToZero(b, WriteSpec(b, 0xFF12, 0xF9));
  }

  lemma OneMoreStep(u: Unit, es: seq<UnitEvent>, e: UnitEvent)
    requires u.Good() && (forall d | d in es :: Addressed(d)) && Addressed(e)
    ensures UnitAfter(u, es + [e]) == UnitStep(UnitAfter(u, es), e) && UnitAfter(u, []) == u
  {
    assert (es + [e])[..|es|] == es;
  }

  lemma FullVolumeSet(u: Unit, a: Unit)
    requires u.Good() && u.mem[22] != 0 && !u.chans[0].enabled && a == WriteSpec(u, 0xFF12, 0xF0)
    ensures a.Shaped() && a.mem[22] != 0 && a.mem[2] == 0xF0 && a.chans[0].volumeInit == 15 && a.chans[0].powered
  {
  }

  lemma TriggeredFull(a: Unit, b: Unit)
    requires a.Good() && a.mem[22] != 0 && b == WriteSpec(a, 0xFF14, 0x80) && b.Good()
    requires a.mem[2] == 0xF0 && a.chans[0].volumeInit == 15 && a.chans[0].powered
    ensures b.mem[22] != 0
    ensures var c := b.chans[0]; c.enabled && c.powered && !c.len.enabled && c.volume == 15 && c.env == Envelope(0, false, 0, 840)
  {
    hide LengthInc, SweepInc;
  }

  lemma SteppedToZero(b: Unit, w: Unit)
    requires b.Good() && b.mem[22] != 0 && w == WriteSpec(b, 0xFF12, 0xF9)
    requires var c := b.chans[0]; c.enabled && c.powered && !c.len.enabled && c.volume == 15 && c.env == Envelope(0, false, 0, 840)
    ensures w.Shaped() && Countdown(w.chans[0]) && w.chans[0].env.counter == 0
  {
  }

  /** Registers that are written before the unit is powered stay clear; in the end it is powered and silent. */
  lemma InitiallySilent()
    ensures Initial().mem[22] != 0 && !Initial().chans[0].enabled
  {
    hide WriteSpec;
    var es := Writes(0xFF10, INITIAL_REGISTERS);
    var u := UnitAfter(Blank(), es);
    Ignored(Blank(), es[..22]);
    assert u == WriteSpec(Blank(), 0xFF26, 0xF1);
    PoweringOn(Blank());
    WaveRam(u, Writes(0xFF30, INITIAL_WAVE));
  }

  lemma PoweringOn(u: Unit)
    requires u.Good()
    ensures WriteSpec(u, 0xFF26, 0xF1) == u.(mem := u.mem[22 := 128])
  {
  }

  lemma {:induction false} Ignored(u: Unit, es: seq<UnitEvent>)
    requires u.Good() && u.mem[22] == 0 && forall e | e in es :: e.Write? && 0xFF10 <= e.addr < 0xFF26
    ensures UnitAfter(u, es) == u
  {
    if es != [] {
      Ignored(u, es[..|es| - 1]);
      assert es[|es| - 1] in es;
    }
  }

  lemma {:induction false} WaveRam(u: Unit, es: seq<UnitEvent>)
    requires u.Good() && u.mem[22] != 0 && forall e | e in es :: e.Write? && 0xFF30 <= e.addr <= 0xFF3F
    ensures UnitAfter(u, es).chans == u.chans && UnitAfter(u, es).mem[22] == u.mem[22]
  {
    if es != [] {
      WaveRam(u, es[..|es| - 1]);
      assert es[|es| - 1] in es;
    }
  }

  /** After the unit has been initialised, those three writes and seven callbacks, the next buffer finds
      channel 0 silent for 131 samples, and at full volume in the one after. */
  lemma EnvelopeWrapsForReal()
    ensures var u := UnitAfter(UnitAfter(Initial(), REWRITE), Callbacks(7));
      var (c, on) := Started(u.chans[0], Pulse1);
      on && RunOf(c, Pulse1, 131).chan.volume == 0 && RunOf(c, Pulse1, 132).chan.volume == 15
  {
    hide UnitAfter, Initial;
    InitiallySilent();
    RewriteStartsCountdown(Initial());
    var w := UnitAfter(Initial(), REWRITE);
    CountdownLasts(w, 7);
    var c := Started(UnitAfter(w, Callbacks(7)).chans[0], Pulse1).0;
    StaysSilent(c, 131);
    JumpsToFull(Waited(c, 131));
    hide SampleSpec, NoteInc;
  }
}
