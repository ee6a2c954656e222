/** How long a triggered channel lasts and how its volume and frequency move (components/minigb_apu/minigb_apu.c):
    length, envelope and sweep after any number of callbacks, stated in samples of 1/16000 second. */
module ApuTimers {
  import opened Bytes
  import opened Apu
  import opened ApuRates

  /** How often a period of so many samples has been passed after n samples; a period ends with the sample
      after it. */
  function Passed(n: nat, period: nat): nat
    requires period > 0
  {
    if n == 0 then 0 else (n - 1) / period
  }

  lemma PassedOnce(n: nat, period: nat)
    requires period > 0
    ensures Passed(n, period) * period <= n <= Passed(n, period) * period + period
    ensures Passed(n + 1, period) == Passed(n, period) + (if n == Passed(n, period) * period + period then 1 else 0)
  {
    var p := Passed(n, period);
    if n > 0 {
      RateIsQuotient(p, n - 1, period);
      assert (p + 1) * period == p * period + period && (p + 2) * period == p * period + period + period;
      RateIsQuotient(if n == p * period + period then p + 1 else p, n, period);
    } else {
      RateIsQuotient(0, 0, period);
    }
  }

  // ----- Envelopes.

  /** A volume that has moved so many places, and not past either end. */
  function Faded(volume: nat, up: bool, moves: nat): nat {
    if up then (if volume + moves > 15 then 15 else volume + moves) else if moves > volume then 0 else volume - moves
  }

  /** The envelope of a channel n samples after its trigger: it moves every 250 * step samples, that is every
      step / 64 seconds, and stops for good at the end of its range. */
  predicate Fading(c: Chan, volume: nat, up: bool, step: nat, n: nat)
    requires step > 0
  {
    var moves := Passed(n, 250 * step);
    && c.env.step == step && c.env.up == up && c.volume == Faded(volume, up, moves)
    && (if c.env.inc == 0 then c.volume == if up then 15 else 0
        else (up || c.volume > 0) && c.env.inc * (250 * step) == REF && c.env.counter == c.env.inc * (n - moves * (250 * step)))
  }

  lemma CounterFull(inc: nat, period: nat, m: nat)
    requires inc > 0 && inc * period == REF && m <= period
    ensures inc * m + inc > REF <==> m == period
    ensures inc * m + inc == inc * (m + 1)
  {
    if m < period {
      MulKeepsOrder(m + 1, period, inc);
    }
  }

  lemma FadeTick(c: Chan, volume: nat, up: bool, step: nat, n: nat)
    requires step > 0 && volume <= 15 && c.env.counter <= REF && Fading(c, volume, up, step, n)
    ensures Fading(EnvTick(c), volume, up, step, n + 1)
  {
    var period := 250 * step;
    var moves := Passed(n, period);
    PassedOnce(n, period);
    if c.env.inc > 0 {
      var m := n - moves * period;
      CounterFull(c.env.inc, period, m);
      assert (moves + 1) * period == moves * period + period;
      hide Passed;
      if m == period {
        FadeMoves(c, volume, up, step, n);
      }
    }
  }

  lemma FadeMoves(c: Chan, volume: nat, up: bool, step: nat, n: nat)
    requires step > 0 && volume <= 15 && c.env.inc > 0 && Fading(c, volume, up, step, n)
    requires c.env.counter == REF && Passed(n + 1, 250 * step) == Passed(n, 250 * step) + 1
    requires n == Passed(n, 250 * step) * (250 * step) + 250 * step
    ensures Fading(EnvTick(c), volume, up, step, n + 1)
  {
    hide Passed;
    var period := 250 * step;
    var moves := Passed(n, period);
    assert (moves + 1) * period == moves * period + period;
    assert n + 1 - (moves + 1) * period == 1;
  }

  /** The envelope ticks once in every sample that the channel plays. */
  lemma SampleTicksEnvelope(c: Chan, v: Voice)
    requires Ready(c, v) && v != Wavetable && Plays(c)
    ensures var e := EnvTick(LengthTick(c));
      SampleSpec(c, v).env == e.env && SampleSpec(c, v).volume == e.volume
  {
    SampleParts(c, v);
    var l := LengthTick(c);
    EnvOnly(l, v);
    EnvOnly(EnvTick(l), v);
    EnvOnly(SweepTick(EnvTick(l)), v);
    hide EnvTick, SweepTick, LengthTick, Sampled, SampleSpec, Ready;
  }

  lemma LengthLeavesEnvelope(c: Chan)
    ensures LengthTick(c).env == c.env && LengthTick(c).volume == c.volume
  {
  }

  lemma EnvOnly(c: Chan, v: Voice)
    ensures SweepTick(c).env == c.env && SweepTick(c).volume == c.volume
    ensures Ready(c, v) ==> Sampled(c, v).env == c.env && Sampled(c, v).volume == c.volume
  {
    hide NoteInc, Swept, Steps, Rest, NoiseAfter, DutyBit;
  }

  lemma {:induction false} RunFades(c: Chan, v: Voice, volume: nat, up: bool, step: nat, n: nat)
    requires Ready(c, v) && v != Wavetable && step > 0 && volume <= 15 && Fading(c, volume, up, step, 0)
    ensures RunOf(c, v, n).on ==> Fading(RunOf(c, v, n).chan, volume, up, step, n)
    decreases n
  {
    hide SampleSpec, EnvTick, LengthTick, Fading, Ready, Plays;
    if n > 0 {
      RunFades(c, v, volume, up, step, n - 1);
      var p := RunOf(c, v, n - 1);
      if p.on && Plays(p.chan) {
        SampleTicksEnvelope(p.chan, v);
        CounterIsLow(p.chan, v);
        var l := LengthTick(p.chan);
        LengthLeavesEnvelope(p.chan);
        FadingAlike(p.chan, l, volume, up, step, n - 1);
        FadeTick(l, volume, up, step, n - 1);
        FadingAlike(EnvTick(l), SampleSpec(p.chan, v), volume, up, step, n);
      }
    }
  }

  lemma CounterIsLow(c: Chan, v: Voice)
    requires Ready(c, v)
    ensures c.env.counter <= REF && c.freqCounter <= REF
  {
  }

  lemma FadingAlike(c: Chan, d: Chan, volume: nat, up: bool, step: nat, n: nat)
    requires step > 0 && Fading(c, volume, up, step, n) && d.env == c.env && d.volume == c.volume
    ensures Fading(d, volume, up, step, n)
  {
    hide Passed;
  }

  /** What a control register with the trigger bit leaves of its channel. */
  lemma TriggerWritten(u: Unit, v: Voice, val: byte)
    requires On(u) && val >= 128
    ensures var i := v.Index();
      var c := u.chans[i].(freq := if i == 3 then u.chans[i].freq else u.chans[i].freq % 256 + val % 8 * 256,
                           len := u.chans[i].len.(enabled := val / 64 % 2 == 1), enabled := true);
      var w := WriteSpec(u, 0xFF14 + 5 * i, val);
      && w.Good()
      && c.len.load < (if i == 2 then 256 else 64)
      && w.chans[i] == Triggered(c, i, u.mem[2 + 5 * i], u.mem[0])
  {
    hide Triggered, Summary;
    WriteKeepsGood(u, 0xFF14 + 5 * v.Index(), val);
  }

  /** The registers that decide whether a triggered channel plays at all. */
  predicate Playable(c: Chan, v: Voice) {
    c.powered && (v == Wavetable ==> c.volumeInit > 0) && (v == Noise ==> c.freq < 14)
  }

  /** The unit once a control register has been written with the trigger bit. */
  function TriggeredBy(u: Unit, v: Voice, val: byte): (w: Unit)
    requires On(u) && val >= 128
    ensures w.Good()
  {
    WriteKeepsGood(u, 0xFF14 + 5 * v.Index(), val);
    WriteSpec(u, 0xFF14 + 5 * v.Index(), val)
  }

  lemma TriggeredPlays(u: Unit, v: Voice, val: byte)
    requires On(u) && val >= 128 && Playable(u.chans[v.Index()], v)
    ensures var c := TriggeredBy(u, v, val).chans[v.Index()];
      && Started(c, v).1
      && Started(c, v).0 == c.(freqInc := Started(c, v).0.freqInc)
  {
    TriggerWritten(u, v, val);
    hide NoteInc, NoiseInc, LengthInc, SweepInc, EnvelopeInc, WriteSpec;
    SoundAt(TriggeredBy(u, v, val), v);
  }

  /** The envelope register of a channel: three bits for the period and one for the direction. */
  function EnvelopeOf(u: Unit, v: Voice): byte
    requires u.Shaped()
  {
    u.mem[2 + 5 * v.Index()]
  }

  predicate Upwards(register: byte) {
    register / 8 % 2 == 1
  }

  function StartVolume(u: Unit, v: Voice): nat
    requires u.Shaped()
  {
    u.chans[v.Index()].volumeInit
  }

  lemma EnvelopeRate(step: nat)
    requires 0 < step < 8
    ensures EnvelopeInc(step) * (250 * step) == REF
  {
  }

  lemma FadingAtFirst(u: Unit, v: Voice, val: byte)
    requires On(u) && val >= 128 && EnvelopeOf(u, v) % 8 > 0 && (Upwards(EnvelopeOf(u, v)) || StartVolume(u, v) > 0)
    ensures StartVolume(u, v) <= 15
    ensures Fading(TriggeredBy(u, v, val).chans[v.Index()], StartVolume(u, v), Upwards(EnvelopeOf(u, v)), EnvelopeOf(u, v) % 8, 0)
  {
    TriggerWritten(u, v, val);
    EnvelopeRate(EnvelopeOf(u, v) % 8);
    SoundAt(u, v);
    hide EnvelopeInc, LengthInc, SweepInc, WriteSpec;
  }

  /** A triggered envelope starts at the volume of its register and moves once every step / 64 seconds. */
  lemma EnvelopeFades(u: Unit, v: Voice, val: byte, n: nat)
    requires On(u) && val >= 128 && v != Wavetable && Playable(u.chans[v.Index()], v)
    requires EnvelopeOf(u, v) % 8 > 0 && (Upwards(EnvelopeOf(u, v)) || StartVolume(u, v) > 0)
    ensures var c := Later(TriggeredBy(u, v, val), v, n);
      c.enabled ==>
        c.volume == Faded(StartVolume(u, v), Upwards(EnvelopeOf(u, v)), Passed(267 * n, 250 * (EnvelopeOf(u, v) % 8)))
  {
    hide Later, Started, TriggeredBy, RunOf, Ready, Sound, EnvelopeOf, Upwards, StartVolume, Passed, Faded;
    var w := TriggeredBy(u, v, val);
    var register, volume, c := EnvelopeOf(u, v), StartVolume(u, v), w.chans[v.Index()];
    TriggeredPlays(u, v, val);
    FadingAtFirst(u, v, val);
    Seamless(w, v, n);
    var s := Started(c, v).0;
    FadingAlike(c, s, volume, Upwards(register), register % 8, 0);
    RunFades(s, v, volume, Upwards(register), register % 8, n * SAMPLES);
    if Later(w, v, n).enabled {
      StartedOnlyTunes(Later(w, v, n), v);
    }
  }

  // ----- Lengths.

  /** A channel whose length has been counting for n samples, and that no sweep will change. */
  predicate Lasting(c: Chan, v: Voice, inc: nat, n: nat) {
    c.enabled && c.len.enabled && c.len.inc == inc && c.len.counter == n * inc && (v == Pulse1 ==> c.sweep.inc == 0)
  }

  /** A sample leaves the length as update_len does. */
  lemma SampleTicksLength(c: Chan, v: Voice)
    requires Ready(c, v) && (v == Pulse1 ==> c.sweep.inc == 0)
    ensures var l, d := LengthTick(c), SampleSpec(c, v);
      d.len == l.len && d.enabled == l.enabled && (v == Pulse1 ==> d.sweep.inc == 0)
  {
    var l := LengthTick(c);
    LengthOnly(c, v);
    LengthOnly(l, v);
    if v == Wavetable {
      WaveParts(c);
    } else {
      SampleParts(c, v);
      LengthOnly(EnvTick(l), v);
      LengthOnly(SweepTick(EnvTick(l)), v);
    }
    hide LengthTick, EnvTick, SweepTick, Sampled, Ready, SampleSpec;
  }

  lemma LengthOnly(c: Chan, v: Voice)
    ensures LengthTick(c).sweep == c.sweep
    ensures EnvTick(c).len == c.len && EnvTick(c).enabled == c.enabled && EnvTick(c).sweep == c.sweep
    ensures SweepTick(c).len == c.len && SweepTick(c).sweep.inc == c.sweep.inc
    ensures c.sweep.counter <= REF && c.sweep.inc == 0 ==> SweepTick(c).enabled == c.enabled
    ensures Ready(c, v) ==> c.sweep.counter <= REF
    ensures Ready(c, v) ==>
      Sampled(c, v).len == c.len && Sampled(c, v).enabled == c.enabled && Sampled(c, v).sweep == c.sweep
  {
    hide NoteInc, Swept, Steps, Rest, NoiseAfter, DutyBit, EnvelopeVolume, RawVolume;
  }

  lemma SampleCounts(c: Chan, v: Voice, inc: nat, n: nat)
    requires Ready(c, v) && Lasting(c, v, inc, n)
    ensures Plays(c) == ((n + 1) * inc <= 1680000) == SampleSpec(c, v).enabled
    ensures (n + 1) * inc <= 1680000 ==> Lasting(SampleSpec(c, v), v, inc, n + 1)
  {
    OnceMore(n, inc);
    SampleTicksLength(c, v);
    hide SampleSpec, Ready;
  }

  lemma {:induction false} RunLasts(c: Chan, v: Voice, inc: nat, n: nat)
    requires Ready(c, v) && Lasting(c, v, inc, 0)
    ensures var p := RunOf(c, v, n);
      if n * inc <= 1680000 then p.on && Lasting(p.chan, v, inc, n) else !p.chan.enabled
    decreases n
  {
    hide SampleSpec, Ready, Plays, Lasting;
    if n > 0 {
      RunLasts(c, v, inc, n - 1);
      OnceMore(n - 1, inc);
      if (n - 1) * inc <= 1680000 {
        SampleCounts(RunOf(c, v, n - 1).chan, v, inc, n - 1);
      } else {
        DisabledStays(c, v, n - 1, n);
      }
    }
  }

  /** What is left of the length of a channel when it is triggered. */
  function LengthLeft(u: Unit, v: Voice): (left: nat)
    requires u.Good()
    ensures left > 0
  {
    SoundAt(u, v);
    (if v == Wavetable then 256 else 64) - u.chans[v.Index()].len.load
  }

  lemma LengthRate(left: nat, inc: nat)
    requires left > 0 && RateOf(inc, 26880, left)
    ensures LengthInc(left) == inc
  {
    RateIsQuotient(inc, 26880, left);
    assert 256 * REF / (RATE * left) == 26880 / left by {
      CancelRate(26880, left, inc);
    }
  }

  lemma CancelRate(a: nat, left: nat, inc: nat)
    requires left > 0 && RateOf(inc, a, left)
    ensures RATE * a / (RATE * left) == inc
  {
    var low, high := inc * left, (inc + 1) * left;
    assert inc * (RATE * left) == RATE * low && (inc + 1) * (RATE * left) == RATE * high;
    RateIsQuotient(inc, RATE * a, RATE * left);
  }

  lemma LastingAtFirst(u: Unit, v: Voice, val: byte, inc: nat)
    requires On(u) && val >= 192 && (v == Pulse1 ==> u.mem[0] / 16 % 8 == 0) && RateOf(inc, 26880, LengthLeft(u, v))
    ensures Lasting(TriggeredBy(u, v, val).chans[v.Index()], v, inc, 0)
  {
    TriggerWritten(u, v, val);
    LengthRate(LengthLeft(u, v), inc);
    hide EnvelopeInc, LengthInc, WriteSpec;
  }

  /** A channel triggered with its length enabled plays on exactly while the samples so far fit into what is
      left of its length: 62.5 samples, that is 1/256 second, for each unit, as far as division in integers
      lets it. */
  lemma LengthEnds(u: Unit, v: Voice, val: byte, inc: nat, n: nat)
    requires On(u) && val >= 192 && Playable(u.chans[v.Index()], v) && (v == Pulse1 ==> u.mem[0] / 16 % 8 == 0)
    requires RateOf(inc, 26880, LengthLeft(u, v))
    ensures Later(TriggeredBy(u, v, val), v, n).enabled <==> 267 * n * inc <= 1680000
  {
    hide Later, Started, TriggeredBy, RunOf, Ready, Sound, RateOf;
    var w := TriggeredBy(u, v, val);
    var c := w.chans[v.Index()];
    TriggeredPlays(u, v, val);
    LastingAtFirst(u, v, val, inc);
    Seamless(w, v, n);
    var s := Started(c, v).0;
    RunLasts(s, v, inc, n * SAMPLES);
  }

  // ----- Sweeps.

  lemma {:induction false} ShiftDivides(x: nat, n: nat)
    ensures ShiftRight(x, n) == x / Pow2(n)
    decreases n
  {
    if n > 0 {
      ShiftDivides(x / 2, n - 1);
      HalfThenMore(x, Pow2(n - 1));
    }
  }

  function Fraction(x: nat, shift: nat): (r: nat)
    ensures r <= x && r == x / Pow2(shift)
  {
    ShiftDivides(x, shift);
    ShiftRight(x, shift)
  }

  /** The frequency after so many sweeps, each by a fraction of what it was, or none once it has left the
      range of the register. */
  function Glide(f: nat, shift: nat, down: bool, times: nat): Option<nat>
    decreases times
  {
    if times == 0 then Some(f)
    else
      match Glide(f, shift, down, times - 1)
      case None => None
      case Some(x) => if down then Some(x - Fraction(x, shift)) else InRegister(x + Fraction(x, shift))
  }

  function InRegister(x: nat): Option<nat> {
    if x > 2047 then None else Some(x)
  }

  lemma {:induction false} GlideStops(f: nat, shift: nat, down: bool, m: nat, n: nat)
    requires m <= n && Glide(f, shift, down, m) == None
    ensures Glide(f, shift, down, n) == None
    decreases n
  {
    if m < n {
      GlideStops(f, shift, down, m, n - 1);
    }
  }

  /** Sweeps in n samples: the first comes at once, since the trigger fills the counter, and the others follow
      every 125 * rate samples, that is every rate / 128 seconds. */
  function Sweeps(n: nat, rate: nat): nat
    requires rate > 0
  {
    Passed(n + 125 * rate, 125 * rate)
  }

  /** A channel that only the sweep changes, n samples after its trigger. */
  predicate Gliding(c: Chan, f: nat, shift: nat, down: bool, rate: nat, n: nat)
    requires rate > 0
  {
    var period, times := 125 * rate, Sweeps(n, rate);
    && c.enabled && !c.len.enabled && c.volume > 0 && c.env.step == 0
    && c.sweep.shift == shift && c.sweep.down == down && c.sweep.inc > 0 && c.sweep.inc * period == REF
    && c.sweep.counter == c.sweep.inc * (n + period - times * period)
    && Glide(f, shift, down, times) == Some(c.freq) && c.sweep.freq == c.freq
  }

  lemma NextSweep(s: Sweep)
    requires s.freq <= 2047 && s.shift > 0
    ensures Swept(s) == if s.down then s.freq - Fraction(s.freq, s.shift) else s.freq + Fraction(s.freq, s.shift)
  {
    SweptRange(s);
    SweptIs(s, ShiftRight(s.freq, s.shift));
    ShiftDivides(s.freq, s.shift);
  }

  lemma GlideTick(c: Chan, f: nat, shift: nat, down: bool, rate: nat, n: nat)
    requires rate > 0 && shift > 0 && c.freq <= 2047 && c.sweep.counter <= REF && Gliding(c, f, shift, down, rate, n)
    ensures SweepTick(c).enabled <==> Glide(f, shift, down, Sweeps(n + 1, rate)).Some?
    ensures SweepTick(c).enabled ==> Gliding(SweepTick(c), f, shift, down, rate, n + 1)
  {
    hide NoteInc, Swept, Passed, Fraction;
    var period := 125 * rate;
    var times := Sweeps(n, rate);
    PassedOnce(n + period, period);
    CounterFull(c.sweep.inc, period, n + period - times * period);
    assert (times + 1) * period == times * period + period;
    NextSweep(c.sweep);
  }

  lemma GlidingAlike(c: Chan, d: Chan, f: nat, shift: nat, down: bool, rate: nat, n: nat)
    requires rate > 0 && Gliding(c, f, shift, down, rate, n) && SameForGlide(c, d)
    ensures Gliding(d, f, shift, down, rate, n)
  {
    hide Glide, Sweeps;
  }

  /** The fields that a sweep is about. */
  predicate SameForGlide(c: Chan, d: Chan) {
    && c.enabled == d.enabled && c.len.enabled == d.len.enabled && c.volume == d.volume && c.env.step == d.env.step
    && c.sweep == d.sweep && c.freq == d.freq
  }

  /** A channel that only the sweep changes is heard in every sample. */
  lemma GlideSample(c: Chan)
    requires Ready(c, Pulse1) && c.enabled && !c.len.enabled && c.volume > 0 && c.env.step == 0
    ensures var e := EnvTick(c);
      && Plays(c) && Ready(e, Pulse1) && SameForGlide(c, e) && SameForGlide(SweepTick(e), SampleSpec(c, Pulse1))
      && c.freq <= 2047 && e.sweep.counter <= REF
  {
    SampleParts(c, Pulse1);
    SweptOnly(c);
    SweptOnly(SweepTick(EnvTick(c)));
    hide EnvTick, SweepTick, SampleSpec, Sampled;
  }

  lemma SweptOnly(c: Chan)
    ensures c.env.step == 0 ==> SameForGlide(c, EnvTick(c))
    ensures Ready(c, Pulse1) ==> SameForGlide(c, Sampled(c, Pulse1))
  {
    hide NoteInc, Swept, Steps, Rest, NoiseAfter, DutyBit, EnvelopeVolume, RawVolume;
  }

  lemma GlideOnce(c: Chan, f: nat, shift: nat, down: bool, rate: nat, n: nat)
    requires Ready(c, Pulse1) && rate > 0 && shift > 0 && Gliding(c, f, shift, down, rate, n)
    ensures var d := SampleSpec(c, Pulse1);
      && Plays(c) && (d.enabled <==> Glide(f, shift, down, Sweeps(n + 1, rate)).Some?)
      && (d.enabled ==> Gliding(d, f, shift, down, rate, n + 1))
  {
    hide SampleSpec, EnvTick, SweepTick, Gliding, Ready, Plays, Sweeps, Glide;
    GlidingIs(c, f, shift, down, rate, n);
    CounterIsLow(c, Pulse1);
    GlideSample(c);
    var e := EnvTick(c);
    GlidingAlike(c, e, f, shift, down, rate, n);
    GlideTick(e, f, shift, down, rate, n);
    if SweepTick(e).enabled {
      GlidingAlike(SweepTick(e), SampleSpec(c, Pulse1), f, shift, down, rate, n + 1);
    }
  }

  lemma {:induction false} RunGlides(c: Chan, f: nat, shift: nat, down: bool, rate: nat, n: nat)
    requires Ready(c, Pulse1) && rate > 0 && shift > 0 && Gliding(c, f, shift, down, rate, 0)
    ensures var d, times := RunOf(c, Pulse1, n).chan, Sweeps(n, rate);
      && (d.enabled <==> Glide(f, shift, down, times).Some?)
      && (d.enabled ==> RunOf(c, Pulse1, n).on && Gliding(d, f, shift, down, rate, n))
    decreases n
  {
    hide SampleSpec, Gliding, Ready, Plays, Sweeps, Glide;
    GlidingIs(c, f, shift, down, rate, 0);
    if n > 0 {
      RunGlides(c, f, shift, down, rate, n - 1);
      var d := RunOf(c, Pulse1, n - 1).chan;
      if d.enabled {
        GlideOnce(d, f, shift, down, rate, n - 1);
      } else {
        DisabledStays(c, Pulse1, n - 1, n);
        SweepsGrow(n, rate);
        GlideStops(f, shift, down, Sweeps(n - 1, rate), Sweeps(n, rate));
      }
    }
  }

  lemma GlidingIs(c: Chan, f: nat, shift: nat, down: bool, rate: nat, n: nat)
    requires rate > 0 && Gliding(c, f, shift, down, rate, n)
    ensures c.enabled && !c.len.enabled && c.volume > 0 && c.env.step == 0
    ensures Glide(f, shift, down, Sweeps(n, rate)) == Some(c.freq)
  {
  }

  lemma SweepsGrow(n: nat, rate: nat)
    requires n > 0 && rate > 0
    ensures Sweeps(n - 1, rate) <= Sweeps(n, rate)
  {
    PassedOnce(n - 1 + 125 * rate, 125 * rate);
  }

  lemma SweepRate(rate: nat)
    requires 0 < rate < 8
    ensures SweepInc(rate) > 0 && SweepInc(rate) * (125 * rate) == REF
  {
    assert 128 * REF == 215040000;
    match rate
    case 1 => assert SweepInc(1) == 13440;
    case 2 => assert SweepInc(2) == 6720;
    case 3 => assert SweepInc(3) == 4480;
    case 4 => assert SweepInc(4) == 3360;
    case 5 => assert SweepInc(5) == 2688;
    case 6 => assert SweepInc(6) == 2240;
    case 7 => assert SweepInc(7) == 1920;
  }

  lemma GlidingAtFirst(u: Unit, val: byte)
    requires On(u) && 128 <= val < 192 && EnvelopeOf(u, Pulse1) % 8 == 0 && StartVolume(u, Pulse1) > 0
    requires u.mem[0] / 16 % 8 > 0
    ensures Gliding(TriggeredBy(u, Pulse1, val).chans[0], u.chans[0].freq % 256 + val % 8 * 256,
                    u.mem[0] % 8, u.mem[0] / 8 % 2 == 1, u.mem[0] / 16 % 8, 0)
  {
    TriggerWritten(u, Pulse1, val);
    SweepRate(u.mem[0] / 16 % 8);
    NoSweepYet(u.mem[0] / 16 % 8);
    hide EnvelopeInc, LengthInc, SweepInc, WriteSpec, Sweeps, ShiftRight;
  }

  lemma NoSweepYet(rate: nat)
    requires rate > 0
    ensures Sweeps(0, rate) == 0
  {
    RateIsQuotient(0, 125 * rate - 1, 125 * rate);
  }

  /** Triggered with the sweep on, and with nothing else to change it, the first channel glides: its frequency
      is moved by a fraction of itself as often as the rate says, and the channel is silenced exactly when
      that would take it out of the range of the register. */
  lemma PulseGlides(u: Unit, val: byte, n: nat)
    requires On(u) && 128 <= val < 192 && EnvelopeOf(u, Pulse1) % 8 == 0 && StartVolume(u, Pulse1) > 0
    requires u.chans[0].powered && u.mem[0] / 16 % 8 > 0 && u.mem[0] % 8 > 0
    ensures var f := u.chans[0].freq % 256 + val % 8 * 256;
      var c := Later(TriggeredBy(u, Pulse1, val), Pulse1, n);
      var after := Glide(f, u.mem[0] % 8, u.mem[0] / 8 % 2 == 1, Sweeps(267 * n, u.mem[0] / 16 % 8));
      (c.enabled <==> after.Some?) && (c.enabled ==> after == Some(c.freq))
  {
    hide Later, Started, TriggeredBy, RunOf, Ready, Sound, Gliding, Glide, Sweeps, EnvelopeOf, StartVolume;
    var w := TriggeredBy(u, Pulse1, val);
    var c := w.chans[0];
    var f, shift, down, rate := u.chans[0].freq % 256 + val % 8 * 256, u.mem[0] % 8, u.mem[0] / 8 % 2 == 1, u.mem[0] / 16 % 8;
    TriggeredPlays(u, Pulse1, val);
    GlidingAtFirst(u, val);
    Seamless(w, Pulse1, n);
    var s := Started(c, Pulse1).0;
    GlidingAlike(c, s, f, shift, down, rate, 0);
    RunGlides(s, f, shift, down, rate, n * SAMPLES);
    var d := RunOf(s, Pulse1, n * SAMPLES).chan;
    if d.enabled {
      GlidingIs(d, f, shift, down, rate, n * SAMPLES);
      StartedOnlyTunes(Later(w, Pulse1, n), Pulse1);
    }
  }
}
