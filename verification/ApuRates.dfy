/** What the registers of the audio unit sound like (components/minigb_apu/minigb_apu.c): the pitch of each channel in
    steps a second, how long it lasts, and how its volume moves, stated in numbers of the Game Boy's clock. */
module ApuRates {
  import opened Bytes
  import opened Apu

  // ----- Rates.

  /** A clock of so many ticks a second completes this many whole periods in a second. */
  predicate RateOf(q: nat, clock: nat, period: nat) {
    q * period <= clock < (q + 1) * period
  }

  lemma RateIsQuotient(q: nat, clock: nat, period: nat)
    requires period > 0
    ensures RateOf(q, clock, period) <==> q == clock / period
  {
    var p := clock / period;
    assert p * period + clock % period == clock;
    assert RateOf(p, clock, period);
    if q < p {
      MulKeepsOrder(q + 1, p, period);
    } else if q > p {
      MulKeepsOrder(p + 1, q, period);
    }
  }

  /** set_note_freq: one step of the waveform lasts 2048 - freq ticks of a clock of 1048576 hertz. */
  lemma NoteIncIs(freq: nat, q: nat)
    requires freq <= 2047 && RateOf(q, 1048576, 2048 - freq)
    ensures NoteInc(freq) == 105 * q
  {
    RateIsQuotient(q, 1048576, 2048 - freq);
  }

  const NOISE_PERIODS: seq<nat> := [8, 16, 32, 48, 64, 80, 96, 112]

  /** The noise clock: its period, doubled as often as the register says, on a clock of 4194304 hertz. */
  lemma NoiseIncIs(divider: nat, freq: nat, q: nat)
    requires divider <= 7 && freq < 14 && RateOf(q, 4194304, NOISE_PERIODS[divider] * Pow2(freq))
    ensures NoiseInc(divider, freq) == 105 * q
  {
    hide Pow2;
    assert NoiseDivisor(divider, freq) == NOISE_PERIODS[divider] * Pow2(freq);
    RateIsQuotient(q, 4194304, NOISE_PERIODS[divider] * Pow2(freq));
    hide NoiseDivisor;
  }

  /** The steps a second that the registers of a channel ask for. */
  predicate Pitch(c: Chan, v: Voice, q: nat)
    requires Sound(c, v.Index())
  {
    match v
    case Wavetable => q % 2 == 0 && RateOf(q / 2, 1048576, 2048 - c.freq)
    case Noise => RateOf(q, 4194304, NOISE_PERIODS[c.wave.divider] * Pow2(c.freq))
    case _ => c.freq <= 2047 && RateOf(q, 1048576, 2048 - c.freq)
  }

  /** In n samples a channel that takes q steps a second takes n * q / 16000 of them, give or take one; and
      over whole seconds it is exactly as many, but for one if its counter starts out empty. */
  lemma StepsKeepPitch(counter: nat, q: nat, n: nat)
    requires counter <= REF
    ensures n * q <= 16000 * Steps(counter, n * (105 * q)) + 16000
    ensures 16000 * Steps(counter, n * (105 * q)) <= n * q + 16000
  {
    var time := n * (105 * q);
    assert time == 105 * (n * q);
    PhaseConserved(counter, time);
    hide Steps, Rest;
  }

  lemma SecondsKeepPitch(counter: nat, q: nat, seconds: nat)
    requires counter <= REF
    ensures Steps(counter, 16000 * seconds * (105 * q)) ==
            if counter == 0 && seconds * q > 0 then seconds * q - 1 else seconds * q
  {
    var p := seconds * q;
    assert 16000 * seconds * (105 * q) == p * REF by {
      SameProduct(seconds, q);
    }
    if counter + p * REF > 0 {
      QuotientIs(counter + p * REF - 1, if counter == 0 then p - 1 else p);
    } else if p > 0 {
      MulKeepsOrder(1, p, REF);
    }
  }

  lemma SameProduct(seconds: nat, q: nat)
    ensures 16000 * seconds * (105 * q) == seconds * q * REF
  {
    assert 16000 * seconds * (105 * q) == 16000 * (105 * (seconds * q));
  }

  lemma QuotientIs(x: nat, p: nat)
    requires p * REF <= x < p * REF + REF
    ensures x / REF == p
  {
  }

  // ----- A channel left alone.

  /** The channel goes on into a buffer as it stands: its increment is the one its registers ask for. */
  predicate Tuned(c: Chan, v: Voice) {
    Sound(c, v.Index()) && Started(c, v) == (c, true)
  }

  lemma LengthKeepsTuned(c: Chan, v: Voice)
    requires Ready(c, v)
    ensures LengthTick(c).enabled ==> c.enabled && (Tuned(c, v) ==> Tuned(LengthTick(c), v))
  {
    TickKeepsReady(c, v);
    hide NoteInc, NoiseInc;
  }

  lemma EnvKeepsTuned(c: Chan, v: Voice)
    requires Ready(c, v) && v != Wavetable
    ensures EnvTick(c).enabled == c.enabled && (Tuned(c, v) ==> Tuned(EnvTick(c), v))
  {
    TickKeepsReady(c, v);
    hide NoteInc, NoiseInc, EnvelopeVolume, RawVolume;
  }

  lemma SweepKeepsTuned(c: Chan)
    requires Ready(c, Pulse1)
    ensures SweepTick(c).enabled ==> c.enabled
    ensures SweepTick(c).enabled && Tuned(c, Pulse1) ==> Tuned(SweepTick(c), Pulse1)
  {
    TickKeepsReady(c, Pulse1);
    hide NoteInc, Swept;
  }

  lemma SampledKeepsTuned(c: Chan, v: Voice)
    requires Ready(c, v)
    ensures Sampled(c, v).enabled == c.enabled && (Tuned(c, v) ==> Tuned(Sampled(c, v), v))
  {
    StepKeepsReady(c, v);
    hide Steps, Rest, NoiseAfter, DutyBit, NoteInc, NoiseInc;
  }

  /** A sample never switches a channel on, and leaves one that stays on tuned. */
  lemma SampleKeepsTuned(c: Chan, v: Voice)
    requires Ready(c, v)
    ensures SampleSpec(c, v).enabled ==> c.enabled && Plays(c)
    ensures SampleSpec(c, v).enabled && Tuned(c, v) ==> Tuned(SampleSpec(c, v), v)
  {
    hide LengthTick, EnvTick, SweepTick, Sampled, Ready, Tuned;
    TickKeepsReady(c, v);
    LengthKeepsTuned(c, v);
    var l := LengthTick(c);
    TickKeepsReady(l, v);
    SampledKeepsTuned(l, v);
    if v != Wavetable {
      EnvKeepsTuned(l, v);
      var e := EnvTick(l);
      SampledKeepsTuned(e, v);
      if v == Pulse1 {
        TickKeepsReady(e, v);
        SweepKeepsTuned(e);
        SampledKeepsTuned(SweepTick(e), v);
      }
    }
  }

  lemma {:induction false} RunKeepsTuned(c: Chan, v: Voice, n: nat)
    requires Ready(c, v) && c.enabled && RunOf(c, v, n).chan.enabled
    ensures RunOf(c, v, n).on && (Tuned(c, v) ==> Tuned(RunOf(c, v, n).chan, v))
    decreases n
  {
    hide SampleSpec, Plays, Tuned, Ready;
    if n > 0 {
      var p := RunOf(c, v, n - 1);
      if p.chan.enabled {
        RunKeepsTuned(c, v, n - 1);
      } else {
        OffMeansDisabled(c, v, n - 1);
      }
      SampleKeepsTuned(p.chan, v);
    }
  }

  /** A run that has stopped left the channel disabled. */
  lemma {:induction false} OffMeansDisabled(c: Chan, v: Voice, n: nat)
    requires Ready(c, v)
    ensures !RunOf(c, v, n).on ==> !RunOf(c, v, n).chan.enabled
    decreases n
  {
    if n > 0 {
      OffMeansDisabled(c, v, n - 1);
    }
    hide LengthTick, Ticked, Sampled, Audible, Ready;
  }

  lemma {:induction false} DisabledStays(c: Chan, v: Voice, n: nat, m: nat)
    requires Ready(c, v) && n <= m && !RunOf(c, v, n).chan.enabled
    ensures !RunOf(c, v, m).chan.enabled
    decreases m
  {
    hide SampleSpec, Plays, Ready;
    if n < m {
      DisabledStays(c, v, n, m - 1);
      SampleKeepsTuned(RunOf(c, v, m - 1).chan, v);
    }
  }

  lemma {:induction false} RunAddsUp(c: Chan, v: Voice, n: nat, m: nat)
    requires Ready(c, v) && RunOf(c, v, n).on
    ensures RunOf(c, v, n + m) == RunOf(RunOf(c, v, n).chan, v, m)
    decreases m
  {
    hide SampleSpec, Plays, Expires, Ready;
    if m == 0 {
      OnMeansNotExpired(c, v, n);
    } else {
      RunAddsUp(c, v, n, m - 1);
    }
  }

  lemma BufferedElsewhere(u: Unit, v: Voice, j: nat)
    requires u.Good() && j < 4 && j != v.Index()
    ensures Buffered(u, v).chans[j] == u.chans[j]
  {
    hide Started, RunOf, Sound, Summary;
  }

  lemma BufferedHere(u: Unit, v: Voice)
    requires u.Good()
    ensures var (s, on) := Started(u.chans[v.Index()], v);
      Buffered(u, v).chans[v.Index()] == if on then RunOf(s, v, SAMPLES).chan else s
  {
    hide Started, RunOf, Sound, Summary;
  }

  /** In a callback each channel has its own buffer and no other. */
  lemma CallbackHere(u: Unit, v: Voice)
    requires u.Good()
    ensures var (s, on) := Started(u.chans[v.Index()], v);
      CallbackSpec(u).chans[v.Index()] == if on then RunOf(s, v, SAMPLES).chan else s
  {
    hide Buffered, Started, RunOf, Ready;
    var a := Buffered(u, Pulse1);
    var b := Buffered(a, Pulse2);
    var c := Buffered(b, Wavetable);
    var i := v.Index();
    if v == Pulse1 {
      BufferedHere(u, v);
    } else {
      BufferedElsewhere(u, Pulse1, i);
    }
    if v == Pulse2 {
      BufferedHere(a, v);
    } else {
      BufferedElsewhere(a, Pulse2, i);
    }
    if v == Wavetable {
      BufferedHere(b, v);
    } else {
      BufferedElsewhere(b, Wavetable, i);
    }
    if v == Noise {
      BufferedHere(c, v);
    } else {
      BufferedElsewhere(c, Noise, i);
    }
  }

  function Callbacks(n: nat): (es: seq<UnitEvent>)
    ensures |es| == n && forall e | e in es :: Addressed(e)
  {
    seq(n, _ => Callback)
  }

  /** The channel after so many callbacks. */
  function Later(u: Unit, v: Voice, n: nat): Chan
    requires u.Good()
  {
    UnitAfter(u, Callbacks(n)).chans[v.Index()]
  }

  lemma LaterOnce(u: Unit, v: Voice, n: nat)
    requires u.Good()
    ensures Sound(Later(u, v, n), v.Index())
    ensures n == 0 ==> Later(u, v, n) == u.chans[v.Index()]
    ensures var (s, on) := Started(Later(u, v, n), v);
      Later(u, v, n + 1) == if on then RunOf(s, v, SAMPLES).chan else s
  {
    hide CallbackSpec, Started, RunOf, Ready, Sound;
    var es := Callbacks(n + 1);
    assert es[..n] == Callbacks(n) && es[n] == Callback;
    CallbackHere(UnitAfter(u, Callbacks(n)), v);
    SoundAt(UnitAfter(u, Callbacks(n)), v);
  }

  lemma SoundAt(u: Unit, v: Voice)
    requires u.Good()
    ensures Sound(u.chans[v.Index()], v.Index())
  {
    hide Sound;
  }

  lemma NotStarted(c: Chan, v: Voice)
    requires Sound(c, v.Index())
    ensures !c.enabled ==> !Started(c, v).1 && !Started(c, v).0.enabled
    ensures Started(c, v).1 ==> c.enabled && Tuned(Started(c, v).0, v)
  {
    hide NoteInc, NoiseInc;
  }

  /** Buffers leave no seam: however often the callback runs, a channel that was playing is where one
      uninterrupted run of all the samples puts it. */
  lemma {:induction false} Seamless(u: Unit, v: Voice, n: nat)
    requires u.Good() && Started(u.chans[v.Index()], v).1
    ensures var run, c := RunOf(Started(u.chans[v.Index()], v).0, v, n * SAMPLES), Later(u, v, n);
      && Sound(c, v.Index()) && c.enabled == run.chan.enabled
      && (c.enabled ==> run.on && Started(c, v) == (run.chan, true))
    decreases n
  {
    hide Started, Later, RunOf, Ready, Tuned, Sound;
    var s := Started(u.chans[v.Index()], v).0;
    NotStarted(u.chans[v.Index()], v);
    LaterOnce(u, v, n);
    if n == 0 {
      RunBegins(s, v);
      StartedIsEnabled(u.chans[v.Index()], v);
    } else {
      Seamless(u, v, n - 1);
      LaterOnce(u, v, n - 1);
      var before := Later(u, v, n - 1);
      NotStarted(before, v);
      assert (n - 1) * SAMPLES + SAMPLES == n * SAMPLES;
      if before.enabled {
        RunAddsUp(s, v, (n - 1) * SAMPLES, SAMPLES);
        StartedIsEnabled(u.chans[v.Index()], v);
        if Later(u, v, n).enabled {
          RunKeepsTuned(s, v, n * SAMPLES);
          TunedStarts(Later(u, v, n), v);
        }
      } else {
        DisabledStays(s, v, (n - 1) * SAMPLES, n * SAMPLES);
      }
    }
  }

  lemma StartedIsEnabled(c: Chan, v: Voice)
    requires Sound(c, v.Index()) && Started(c, v).1
    ensures c.enabled && Started(c, v).0.enabled
  {
  }

  lemma TunedStarts(c: Chan, v: Voice)
    requires Tuned(c, v)
    ensures Started(c, v) == (c, true)
  {
  }

  // ----- A channel left alone.

  /** A channel that sounds, and that neither length, envelope nor sweep will change. */
  predicate Sustained(c: Chan, v: Voice) {
    Sound(c, v.Index()) && Steady(c, v) && c.powered && c.volume > 0 && (v == Noise ==> c.freq < 14)
  }

  /** The settings that samples leave alone. */
  predicate SameVoice(c: Chan, d: Chan) {
    c.volume == d.volume && c.wave.duty == d.wave.duty && c.wave.wide == d.wave.wide
  }

  lemma StartedIs(c: Chan, v: Voice, q: nat)
    requires Sustained(c, v) && Pitch(c, v, q)
    ensures Started(c, v) == (c.(freqInc := 105 * q), true) && Steady(c.(freqInc := 105 * q), v)
  {
    hide NoteInc, NoiseInc, Sound, RateOf, Pow2;
    if v == Noise {
      SoundNoise(c);
      NoiseIncIs(c.wave.divider, c.freq, q);
    } else if v == Wavetable {
      SoundTone(c, 2);
      NoteIncIs(c.freq, q / 2);
    } else {
      SoundTone(c, v.Index());
      NoteIncIs(c.freq, q);
    }
  }

  lemma SoundTone(c: Chan, i: nat)
    requires Sound(c, i) && c.enabled && i < 3
    ensures c.freq <= 2047
  {
  }

  lemma SoundNoise(c: Chan)
    requires Sound(c, 3)
    ensures c.wave.divider <= 7
  {
  }

  lemma SampleKeepsVoice(c: Chan, v: Voice)
    requires Ready(c, v) && Steady(c, v)
    ensures SameVoice(SampleSpec(c, v), c)
  {
    hide Steps, Rest, NoiseAfter, DutyBit, Swept, NoteInc;
  }

  lemma {:induction false} RunKeepsVoice(c: Chan, v: Voice, n: nat)
    requires Ready(c, v) && Steady(c, v)
    ensures SameVoice(RunOf(c, v, n).chan, c)
    decreases n
  {
    hide SampleSpec, Ready, Steady;
    if n > 0 {
      RunKeepsVoice(c, v, n - 1);
      SteadyChannelIsHeard(c, v, n - 1);
      SampleKeepsVoice(RunOf(c, v, n - 1).chan, v);
    }
  }

  /** From c to d the channel has sounded on for this time. */
  predicate Sounded(c: Chan, v: Voice, d: Chan, time: nat) {
    d.enabled && SameVoice(d, c) && Kept(c, v, d, time)
  }

  lemma AnyIncrement(c: Chan, v: Voice, d: Chan, time: nat, x: nat, y: nat)
    requires Sounded(c.(freqInc := x), v, d.(freqInc := y), time)
    ensures Sounded(c, v, d, time)
  {
    hide Steps, Rest, NoiseAfter, DutyBit, Level;
  }

  /** The time that n buffers add to the counter of a channel that takes q steps a second. */
  function Span(n: nat, q: nat): nat {
    n * SAMPLES * (105 * q)
  }

  /** The channel of this voice is sustained and takes q steps a second. */
  predicate Tone(u: Unit, v: Voice, q: nat) {
    u.Good() && Sustained(u.chans[v.Index()], v) && Pitch(u.chans[v.Index()], v, q)
  }

  lemma CallbacksSustain(u: Unit, v: Voice, q: nat, n: nat)
    requires Tone(u, v, q)
    ensures Sounded(u.chans[v.Index()], v, Later(u, v, n), Span(n, q))
  {
    hide Sustained, Pitch, Steady, Ready, Kept, Later, Started, RunOf;
    var c, d := u.chans[v.Index()], Later(u, v, n);
    StartedIs(c, v, q);
    Seamless(u, v, n);
    var s := Started(c, v).0;
    SteadyChannelIsHeard(s, v, n * SAMPLES);
    RunKeepsVoice(s, v, n * SAMPLES);
    BufferKeepsTime(s, v, n * SAMPLES);
    var run := RunOf(s, v, n * SAMPLES).chan;
    SteadyIsEnabled(run, v);
    StartedOnlyTunes(d, v);
    AnyIncrement(c, v, d, Span(n, q), 105 * q, run.freqInc);
  }

  lemma SteadyIsEnabled(c: Chan, v: Voice)
    requires Steady(c, v)
    ensures c.enabled
  {
  }

  lemma StartedOnlyTunes(c: Chan, v: Voice)
    requires Sound(c, v.Index()) && c.enabled && Started(c, v).1
    ensures c.(freqInc := Started(c, v).0.freqInc) == Started(c, v).0
  {
  }

  // ----- A note written to the registers.

  function NoteWrites(base: int, vals: seq<byte>): (es: seq<UnitEvent>)
    requires 0xFF10 <= base <= 0xFF30 && |vals| == 5
    ensures |es| == 5 && forall e | e in es :: Addressed(e)
  {
    [Write(base, vals[0]), Write(base + 1, vals[1]), Write(base + 2, vals[2]), Write(base + 3, vals[3]), Write(base + 4, vals[4])]
  }

  lemma OneEvent(u: Unit, es: seq<UnitEvent>, e: UnitEvent)
    requires u.Good() && (forall f | f in es :: Addressed(f)) && Addressed(e)
    ensures UnitAfter(u, []) == u
    ensures forall f | f in es + [e] :: Addressed(f)
    ensures UnitAfter(u, es + [e]) == UnitStep(UnitAfter(u, es), e)
  {
    hide UnitStep;
    assert (es + [e])[..|es|] == es;
  }

  lemma FiveEvents(u: Unit, base: int, vals: seq<byte>)
    requires u.Good() && 0xFF10 <= base <= 0xFF30 && |vals| == 5
    ensures var a := UnitStep(u, Write(base, vals[0]));
      var b := UnitStep(a, Write(base + 1, vals[1]));
      var c := UnitStep(b, Write(base + 2, vals[2]));
      var d := UnitStep(c, Write(base + 3, vals[3]));
      UnitAfter(u, NoteWrites(base, vals)) == UnitStep(d, Write(base + 4, vals[4]))
  {
    hide WriteSpec;
    var es := NoteWrites(base, vals);
    assert es == es[..4] + [es[4]] && es[..4] == es[..3] + [es[3]] && es[..3] == es[..2] + [es[2]]
           && es[..2] == es[..1] + [es[1]] && es[..1] == [] + [es[0]];
    OneEvent(u, [], es[0]);
    OneEvent(u, es[..1], es[1]);
    OneEvent(u, es[..2], es[2]);
    OneEvent(u, es[..3], es[3]);
    OneEvent(u, es[..4], es[4]);
  }

  /** The unit is switched on. */
  predicate On(u: Unit) {
    u.Good() && u.mem[22] != 0
  }

  /** A pulse channel on its way to a note: its unit is on, and the registers written so far say so. */
  predicate Prepared(u: Unit, w: Unit, i: nat, vals: seq<byte>, written: nat)
    requires i < 2 && |vals| == 5 && u.Shaped()
  {
    && w.Good() && w.mem[22] != 0
    && (forall k: nat | k < 4 && k < written :: w.mem[5 * i + k] == vals[k])
    && w.chans[i].freqCounter == u.chans[i].freqCounter && w.chans[i].value == u.chans[i].value
    && w.chans[i].wave == u.chans[i].wave.(duty := if written < 2 then u.chans[i].wave.duty else DutyOf(vals[1]))
    && (written >= 3 ==> w.chans[i].volumeInit == vals[2] / 16 && w.chans[i].powered == (vals[2] >= 8))
    && (written >= 4 ==> w.chans[i].freq % 256 == vals[3])
  }

  lemma PreparedMore(u: Unit, w: Unit, i: nat, vals: seq<byte>, written: nat)
    requires i < 2 && |vals| == 5 && u.Good() && written < 4 && Prepared(u, w, i, vals, written)
    ensures Prepared(u, WriteSpec(w, 0xFF10 + 5 * i + written, vals[written]), i, vals, written + 1)
  {
    hide DutyOf, Sound;
    WriteKeepsGood(w, 0xFF10 + 5 * i + written, vals[written]);
  }

  lemma PulseTriggered(u: Unit, w: Unit, i: nat, vals: seq<byte>, f: nat)
    requires i < 2 && |vals| == 5 && u.Good() && Prepared(u, w, i, vals, 4)
    requires f <= 2047 && vals[3] == f % 256 && vals[4] == 128 + f / 256
    requires 16 <= vals[2] && vals[2] % 8 == 0 && (i == 0 ==> vals[0] == 0)
    ensures PulseReady(u.chans[i], WriteSpec(w, 0xFF14 + 5 * i, vals[4]).chans[i], i, f, vals[2] / 16, vals[1])
  {
    hide DutyOf, LengthInc, EnvelopeInc, Summary;
    WriteKeepsGood(w, 0xFF14 + 5 * i, vals[4]);
  }

  /** The pulse channel c is ready to sound the note, from where the waveform of b was. */
  predicate PulseReady(b: Chan, c: Chan, i: nat, f: nat, volume: nat, duty: byte) {
    && Sustained(c, if i == 0 then Pulse1 else Pulse2)
    && c.freq == f && c.volume == volume && c.freqCounter == b.freqCounter
    && c.value == b.value && c.wave == b.wave.(duty := DutyOf(duty))
  }

  /** The positions of a duty pattern that are high: an eighth, a quarter, a half or three quarters of them. */
  const HIGH_POSITIONS: seq<set<nat>> := [{4}, {4, 5}, {2, 3, 4, 5}, {0, 1, 2, 3, 6, 7}]

  lemma DutyShare(setting: nat, position: nat)
    requires setting < 4 && position < 8
    ensures DutyBit(DutyOf(64 * setting), position) <==> position in HIGH_POSITIONS[setting]
  {
    DutyShareOf(setting);
  }

  lemma DutyShareOf(setting: nat)
    requires setting < 4
    ensures forall position: nat | position < 8 ::
      DutyBit(DutyOf(64 * setting), position) <==> position in HIGH_POSITIONS[setting]
  {
    match setting
    case 0 => assert DutyOf(0) == 0x10; assert !DutyBit(0x10, 0) && !DutyBit(0x10, 1) && !DutyBit(0x10, 2) && !DutyBit(0x10, 3) && DutyBit(0x10, 4) && !DutyBit(0x10, 5) && !DutyBit(0x10, 6) && !DutyBit(0x10, 7);
    case 1 => assert DutyOf(64) == 0x30; assert !DutyBit(0x30, 0) && !DutyBit(0x30, 1) && !DutyBit(0x30, 2) && !DutyBit(0x30, 3) && DutyBit(0x30, 4) && DutyBit(0x30, 5) && !DutyBit(0x30, 6) && !DutyBit(0x30, 7);
    case 2 => assert DutyOf(128) == 0x3C; assert !DutyBit(0x3C, 0) && !DutyBit(0x3C, 1) && DutyBit(0x3C, 2) && DutyBit(0x3C, 3) && DutyBit(0x3C, 4) && DutyBit(0x3C, 5) && !DutyBit(0x3C, 6) && !DutyBit(0x3C, 7);
    case 3 => assert DutyOf(192) == 0xCF; assert DutyBit(0xCF, 0) && DutyBit(0xCF, 1) && DutyBit(0xCF, 2) && DutyBit(0xCF, 3) && !DutyBit(0xCF, 4) && !DutyBit(0xCF, 5) && DutyBit(0xCF, 6) && DutyBit(0xCF, 7);
  }

  /** A pulse note as it stands after some steps of its pattern. */
  predicate PulseStands(before: Chan, after: Chan, setting: nat, volume: nat, steps: nat)
    requires setting < 4
  {
    && after.enabled && after.volume == volume
    && after.wave.position == (before.wave.position + steps) % 8
    && after.value == if steps == 0 then before.value
                      else if after.wave.position in HIGH_POSITIONS[setting] then 273 else -273
  }

  /** The note has taken so many steps in so many samples as q steps a second ask for, give or take one. */
  ghost predicate PulseSounds(before: Chan, after: Chan, setting: nat, volume: nat, samples: nat, q: nat)
    requires setting < 4
  {
    exists steps: nat ::
      PulseStands(before, after, setting, volume, steps) && samples * q - 16000 <= 16000 * steps <= samples * q + 16000
  }

  /** The registers of a pulse note: no sweep, the duty setting, a volume without envelope, the frequency and
      the trigger. */
  function PulseRegisters(f: nat, setting: nat, volume: nat): (vals: seq<byte>)
    requires f <= 2047 && setting < 4 && volume <= 15
    ensures |vals| == 5
  {
    [0, 64 * setting, 16 * volume, f % 256, 128 + f / 256]
  }

  lemma PulseWritten(u: Unit, i: nat, f: nat, setting: nat, volume: nat)
    requires On(u) && i < 2 && f <= 2047 && setting < 4 && 1 <= volume <= 15
    ensures var w := UnitAfter(u, NoteWrites(0xFF10 + 5 * i, PulseRegisters(f, setting, volume)));
      PulseReady(u.chans[i], w.chans[i], i, f, volume, 64 * setting)
  {
    hide PulseReady, DutyOf, WriteSpec, Sound;
    var vals := PulseRegisters(f, setting, volume);
    var base := 0xFF10 + 5 * i;
    FiveEvents(u, base, vals);
    PreparedMore(u, u, i, vals, 0);
    var a := WriteSpec(u, base, vals[0]);
    PreparedMore(u, a, i, vals, 1);
    var b := WriteSpec(a, base + 1, vals[1]);
    PreparedMore(u, b, i, vals, 2);
    var c := WriteSpec(b, base + 2, vals[2]);
    PreparedMore(u, c, i, vals, 3);
    PulseTriggered(u, WriteSpec(c, base + 3, vals[3]), i, vals, f);
    hide Prepared;
  }

  /** A note written to the registers of a pulse channel sounds at its pitch for as long as it is left alone:
      after any number of callbacks, each of 267 samples at 16000 hertz, the channel has taken the steps of
      its duty pattern that q steps a second ask for, give or take one. */
  lemma PulseNoteSounds(u: Unit, ch2: bool, f: nat, q: nat, setting: nat, volume: nat, n: nat)
    requires On(u) && f <= 2047 && q * (2048 - f) <= 1048576 < (q + 1) * (2048 - f)
    requires setting < 4 && 1 <= volume <= 15
    ensures var i := if ch2 then 1 else 0;
      var w := UnitAfter(u, NoteWrites(0xFF10 + 5 * i, [0, 64 * setting, 16 * volume, f % 256, 128 + f / 256]));
      PulseSounds(u.chans[i], Later(w, if ch2 then Pulse2 else Pulse1, n), setting, volume, 267 * n, q)
  {
    hide Sustained, DutyOf, Later, UnitAfter, NoteWrites;
    var i, v := if ch2 then 1 else 0, if ch2 then Pulse2 else Pulse1;
    PulseWritten(u, i, f, setting, volume);
    var w := UnitAfter(u, NoteWrites(0xFF10 + 5 * i, PulseRegisters(f, setting, volume)));
    CallbacksSustain(w, v, q, n);
    var steps := Steps(u.chans[i].freqCounter, Span(n, q));
    CounterInRange(u, i);
    PulseAfter(u.chans[i], w.chans[i], Later(w, v, n), v, setting, Span(n, q));
    SpanSteps(u.chans[i].freqCounter, q, n);
    assert PulseRegisters(f, setting, volume) == [0, 64 * setting, 16 * volume, f % 256, 128 + f / 256];
    assert PulseStands(u.chans[i], Later(w, v, n), setting, volume, steps);
  }

  lemma CounterInRange(u: Unit, i: nat)
    requires u.Good() && i < 4
    ensures u.chans[i].freqCounter <= REF && u.chans[i].wave.position < 8
  {
  }

  lemma SpanSteps(counter: nat, q: nat, n: nat)
    requires counter <= REF
    ensures 267 * n * q - 16000 <= 16000 * Steps(counter, Span(n, q)) <= 267 * n * q + 16000
  {
    hide Steps;
    StepsKeepPitch(counter, q, n * SAMPLES);
  }

  lemma PulseAfter(before: Chan, c: Chan, d: Chan, v: Voice, setting: nat, time: nat)
    requires setting < 4 && (v == Pulse1 || v == Pulse2) && before.wave.position < 8
    requires c.value == before.value && c.freqCounter == before.freqCounter && c.wave == before.wave.(duty := DutyOf(64 * setting))
    requires Sounded(c, v, d, time)
    ensures PulseStands(before, d, setting, c.volume, Steps(before.freqCounter, time))
  {
    hide Steps, DutyBit, DutyOf, Sound;
    var steps := Steps(before.freqCounter, time);
    DutyShare(setting, (before.wave.position + steps) % 8);
  }

  /** The wave channel on its way to a note. */
  predicate WavePrepared(u: Unit, w: Unit, vals: seq<byte>, written: nat)
    requires |vals| == 5 && u.Shaped()
  {
    && On(w) && w.chans[2].freqCounter == u.chans[2].freqCounter
    && (written >= 1 ==> w.chans[2].powered)
    && (written >= 3 ==> w.chans[2].volumeInit == vals[2] / 32 % 4)
    && (written >= 4 ==> w.chans[2].freq % 256 == vals[3])
  }

  lemma WavePreparedMore(u: Unit, w: Unit, vals: seq<byte>, written: nat)
    requires |vals| == 5 && vals[0] >= 128 && u.Good() && written < 4 && WavePrepared(u, w, vals, written)
    ensures WavePrepared(u, WriteSpec(w, 0xFF1A + written, vals[written]), vals, written + 1)
  {
    hide DutyOf, Sound;
    WriteKeepsGood(w, 0xFF1A + written, vals[written]);
  }

  lemma WaveTriggered(u: Unit, w: Unit, vals: seq<byte>, f: nat)
    requires |vals| == 5 && u.Good() && WavePrepared(u, w, vals, 4)
    requires f <= 2047 && vals[3] == f % 256 && vals[4] == 128 + f / 256
    requires vals[0] >= 128 && vals[2] / 32 % 4 > 0
    ensures var c := WriteSpec(w, 0xFF1E, vals[4]).chans[2];
      && Sustained(c, Wavetable)
      && c.freq == f && c.volume == vals[2] / 32 % 4 && c.freqCounter == u.chans[2].freqCounter && c.value == 0
  {
    hide DutyOf, LengthInc, EnvelopeInc, Summary;
    WriteKeepsGood(w, 0xFF1E, vals[4]);
  }

  function WaveRegisters(f: nat, volume: nat): (vals: seq<byte>)
    requires f <= 2047 && volume <= 3
    ensures |vals| == 5
  {
    [128, 0, 32 * volume, f % 256, 128 + f / 256]
  }

  lemma WaveWritten(u: Unit, f: nat, volume: nat)
    requires On(u) && f <= 2047 && 1 <= volume <= 3
    ensures var c := UnitAfter(u, NoteWrites(0xFF1A, WaveRegisters(f, volume))).chans[2];
      && Sustained(c, Wavetable)
      && c.freq == f && c.volume == volume && c.freqCounter == u.chans[2].freqCounter && c.value == 0
  {
    hide Sustained, WriteSpec;
    var vals := WaveRegisters(f, volume);
    FiveEvents(u, 0xFF1A, vals);
    WavePreparedMore(u, u, vals, 0);
    var a := WriteSpec(u, 0xFF1A, vals[0]);
    WavePreparedMore(u, a, vals, 1);
    var b := WriteSpec(a, 0xFF1B, vals[1]);
    WavePreparedMore(u, b, vals, 2);
    var c := WriteSpec(b, 0xFF1C, vals[2]);
    WavePreparedMore(u, c, vals, 3);
    WaveTriggered(u, WriteSpec(c, 0xFF1D, vals[3]), vals, f);
    hide WavePrepared;
  }

  /** The note has taken so many steps in so many samples as q steps a second ask for, give or take one. */
  ghost predicate WaveSounds(c: Chan, volume: nat, samples: nat, q: nat) {
    exists steps: nat ::
      c.enabled && c.volume == volume && c.value == steps % 32 && samples * q - 16000 <= 16000 * steps <= samples * q + 16000
  }

  /** A note of the wave channel moves through its 32 samples at twice that rate. */
  lemma WaveNoteSounds(u: Unit, f: nat, q: nat, volume: nat, n: nat)
    requires On(u) && f <= 2047 && q * (2048 - f) <= 1048576 < (q + 1) * (2048 - f) && 1 <= volume <= 3
    ensures WaveSounds(Later(UnitAfter(u, NoteWrites(0xFF1A, [128, 0, 32 * volume, f % 256, 128 + f / 256])), Wavetable, n),
                       volume, 267 * n, 2 * q)
  {
    hide Sustained, Later, UnitAfter, NoteWrites, Sounded, Span, Tone, Steps;
    WaveWritten(u, f, volume);
    var w := UnitAfter(u, NoteWrites(0xFF1A, WaveRegisters(f, volume)));
    var c := w.chans[2];
    WaveTone(w, f, q);
    CallbacksSustain(w, Wavetable, 2 * q, n);
    CounterInRange(u, 2);
    WaveAfter(c, Later(w, Wavetable, n), Span(n, 2 * q));
    SpanSteps(c.freqCounter, 2 * q, n);
    WaveTakes(Later(w, Wavetable, n), volume, 267 * n, 2 * q, Steps(c.freqCounter, Span(n, 2 * q)));
  }

  lemma WaveTone(w: Unit, f: nat, q: nat)
    requires w.Good() && Sustained(w.chans[2], Wavetable) && w.chans[2].freq == f <= 2047
    requires q * (2048 - f) <= 1048576 < (q + 1) * (2048 - f)
    ensures Tone(w, Wavetable, 2 * q)
  {
    hide Sustained;
    assert 2 * q / 2 == q;
  }

  lemma WaveTakes(c: Chan, volume: nat, samples: nat, q: nat, steps: nat)
    requires c.enabled && c.volume == volume && c.value == steps % 32
    requires samples * q - 16000 <= 16000 * steps <= samples * q + 16000
    ensures WaveSounds(c, volume, samples, q)
  {
  }

  lemma WaveAfter(c: Chan, d: Chan, time: nat)
    requires Sounded(c, Wavetable, d, time) && c.value == 0
    ensures d.enabled && d.volume == c.volume && d.value == Steps(c.freqCounter, time) % 32
  {
    hide Steps, Sound;
  }

  /** The noise channel on its way to a sound. */
  predicate NoisePrepared(u: Unit, w: Unit, vals: seq<byte>, written: nat)
    requires |vals| == 5 && u.Shaped()
  {
    && On(w) && w.chans[3].freqCounter == u.chans[3].freqCounter
    && (written >= 3 ==> w.mem[17] == vals[2] && w.chans[3].volumeInit == vals[2] / 16 && w.chans[3].powered == (vals[2] >= 8))
    && (written >= 4 ==>
         w.chans[3].freq == vals[3] / 16 && w.chans[3].wave.wide == (vals[3] / 8 % 2 == 0) && w.chans[3].wave.divider == vals[3] % 8)
  }

  lemma NoisePreparedMore(u: Unit, w: Unit, vals: seq<byte>, written: nat)
    requires |vals| == 5 && u.Good() && written < 4 && NoisePrepared(u, w, vals, written)
    ensures NoisePrepared(u, WriteSpec(w, 0xFF1F + written, vals[written]), vals, written + 1)
  {
    hide DutyOf, Sound;
    WriteKeepsGood(w, 0xFF1F + written, vals[written]);
  }

  lemma NoiseTriggered(u: Unit, w: Unit, vals: seq<byte>)
    requires |vals| == 5 && u.Good() && NoisePrepared(u, w, vals, 4)
    requires 16 <= vals[2] && vals[2] % 8 == 0 && vals[3] / 16 < 14 && vals[4] == 128
    ensures var c := WriteSpec(w, 0xFF23, vals[4]).chans[3];
      && Sustained(c, Noise) && c.freqCounter == u.chans[3].freqCounter && c.volume == vals[2] / 16
      && c.freq == vals[3] / 16 && c.wave.divider == vals[3] % 8 && c.wave.wide == (vals[3] / 8 % 2 == 0)
      && c.wave.lfsr == 0xFFFF && c.value == -273
  {
    hide DutyOf, LengthInc, EnvelopeInc, Summary;
    WriteKeepsGood(w, 0xFF23, vals[4]);
  }

  function NoiseRegisters(shift: nat, narrow: bool, divider: nat, volume: nat): (vals: seq<byte>)
    requires shift < 14 && divider <= 7 && volume <= 15
    ensures |vals| == 5
  {
    [0, 0, 16 * volume, 16 * shift + (if narrow then 8 else 0) + divider, 128]
  }

  lemma NoiseWritten(u: Unit, shift: nat, narrow: bool, divider: nat, volume: nat)
    requires On(u) && shift < 14 && divider <= 7 && 1 <= volume <= 15
    ensures var c := UnitAfter(u, NoteWrites(0xFF1F, NoiseRegisters(shift, narrow, divider, volume))).chans[3];
      && Sustained(c, Noise) && c.freqCounter == u.chans[3].freqCounter && c.volume == volume
      && c.freq == shift && c.wave.divider == divider && c.wave.wide == !narrow
      && c.wave.lfsr == 0xFFFF && c.value == -273
  {
    hide Sustained, WriteSpec, Sound;
    var vals := NoiseRegisters(shift, narrow, divider, volume);
    FiveEvents(u, 0xFF1F, vals);
    NoisePreparedMore(u, u, vals, 0);
    var a := WriteSpec(u, 0xFF1F, vals[0]);
    NoisePreparedMore(u, a, vals, 1);
    var b := WriteSpec(a, 0xFF20, vals[1]);
    NoisePreparedMore(u, b, vals, 2);
    var c := WriteSpec(b, 0xFF21, vals[2]);
    NoisePreparedMore(u, c, vals, 3);
    NoiseTriggered(u, WriteSpec(c, 0xFF22, vals[3]), vals);
    hide NoisePrepared;
  }

  /** The noise channel moves through its sequence at the rate of its clock. */
  lemma NoiseSounds(u: Unit, shift: nat, narrow: bool, divider: nat, q: nat, volume: nat, n: nat)
    requires On(u) && shift < 14 && divider <= 7 && 1 <= volume <= 15
    requires RateOf(q, 4194304, NOISE_PERIODS[divider] * Pow2(shift))
    ensures var w := UnitAfter(u, NoteWrites(0xFF1F, NoiseRegisters(shift, narrow, divider, volume)));
      var c := Later(w, Noise, n);
      exists steps: nat ::
        && c.enabled && c.volume == volume && (c.wave.lfsr, c.value) == NoiseAfter(0xFFFF, -273, !narrow, steps)
        && 267 * n * q - 16000 <= 16000 * steps <= 267 * n * q + 16000
  {
    hide Sustained, Later, UnitAfter, NoteWrites, NoiseAfter, Pow2;
    NoiseWritten(u, shift, narrow, divider, volume);
    var w := UnitAfter(u, NoteWrites(0xFF1F, NoiseRegisters(shift, narrow, divider, volume)));
    CallbacksSustain(w, Noise, q, n);
    CounterInRange(u, 3);
    NoiseStands(w.chans[3], Later(w, Noise, n), Span(n, q));
    SpanSteps(u.chans[3].freqCounter, q, n);
  }

  lemma NoiseStands(c: Chan, d: Chan, time: nat)
    requires Sounded(c, Noise, d, time)
    ensures d.enabled && d.volume == c.volume
    ensures (d.wave.lfsr, d.value) == NoiseAfter(c.wave.lfsr, c.value, c.wave.wide, Steps(c.freqCounter, time))
  {
    hide Steps, Sound, NoiseAfter;
  }

  // ----- The noise sequence.

  /** The level of the noise channel after some steps. */
  predicate High(register: nat, value: int, wide: bool, steps: nat) {
    NoiseAfter(register, value, wide, steps).1 == 273
  }

  function Bit(x: nat, k: nat): bool {
    if k == 0 then x % 2 == 1 else Bit(x / 2, k - 1)
  }

  lemma HalfOfRest(x: nat, m: nat)
    requires m > 0
    ensures x % (2 * m) / 2 == x / 2 % m && x % (2 * m) % 2 == x % 2
  {
    var q := x / (2 * m);
    var r := x % (2 * m);
    assert x == 2 * m * q + r;
    assert x / 2 == m * q + r / 2 && x % 2 == r % 2 by {
      var t := m * q;
      assert x == 2 * t + r;
    }
    ModIs(x / 2, q, r / 2, m);
  }

  lemma {:induction false} LowBits(x: nat, n: nat, k: nat)
    requires k < n
    ensures Bit(x % Pow2(n), k) == Bit(x, k)
    decreases n
  {
    HalfOfRest(x, Pow2(n - 1));
    if k > 0 {
      LowBits(x / 2, n - 1, k - 1);
    }
  }

  /** One step moves every bit up and puts the last level in at the bottom. */
  lemma LfsrBit(register: nat, value: int, k: nat)
    requires k <= 14
    ensures Bit(Lfsr(register, value), k) == if k == 0 then value >= 273 else Bit(register, k - 1)
  {
    var x := register * 2 + (if value >= 273 then 1 else 0);
    assert Pow2(16) == 65536 by {
      assert Pow2(4) == 16 && Pow2(8) == 256 && Pow2(12) == 4096;
    }
    LowBits(x, 16, k);
    assert x / 2 == register;
  }

  lemma HalfThenMore(x: nat, m: nat)
    requires m > 0
    ensures x / 2 / m == x / (2 * m)
  {
    var q := x / 2 / m;
    RateIsQuotient(q, x / 2, m);
    assert RateOf(q, x, 2 * m) by {
      TwiceThePeriod(q, x, m);
    }
    RateIsQuotient(q, x, 2 * m);
  }

  lemma TwiceThePeriod(q: nat, x: nat, m: nat)
    requires RateOf(q, x / 2, m)
    ensures RateOf(q, x, 2 * m)
  {
    var a, b := q * m, (q + 1) * m;
    assert q * (2 * m) == 2 * a && (q + 1) * (2 * m) == 2 * b;
  }

  lemma {:induction false} BitAt(x: nat, k: nat)
    ensures Bit(x, k) == (x / Pow2(k) % 2 == 1)
    decreases k
  {
    if k > 0 {
      BitAt(x / 2, k - 1);
      HalfThenMore(x, Pow2(k - 1));
    }
  }

  lemma TapsAreBits(register: nat)
    ensures Bit(register, 5) == (register / 32 % 2 == 1) && Bit(register, 6) == (register / 64 % 2 == 1)
    ensures Bit(register, 13) == (register / 8192 % 2 == 1) && Bit(register, 14) == (register / 16384 % 2 == 1)
  {
    BitAt(register, 5);
    BitAt(register, 6);
    BitAt(register, 13);
    BitAt(register, 14);
    hide Bit;
    assert Pow2(5) == 32 && Pow2(6) == 64 && Pow2(9) == 512 && Pow2(13) == 8192 && Pow2(14) == 16384;
  }

  /** The register remembers the last fifteen levels. */
  lemma {:induction false} RegisterRemembers(register: nat, value: int, wide: bool, steps: nat, k: nat)
    requires k < steps && k <= 14 && (value == 273 || value == -273)
    ensures Bit(NoiseAfter(register, value, wide, steps).0, k) == High(register, value, wide, steps - 1 - k)
    decreases steps
  {
    hide Lfsr, NoiseLevel;
    var (r, v) := NoiseAfter(register, value, wide, steps - 1);
    LfsrBit(r, v, k);
    LevelsOnly(register, value, wide, steps - 1);
    if k > 0 {
      RegisterRemembers(register, value, wide, steps - 1, k - 1);
    }
  }

  lemma LevelsOnly(register: nat, value: int, wide: bool, steps: nat)
    requires value == 273 || value == -273
    ensures NoiseAfter(register, value, wide, steps).1 == 273 || NoiseAfter(register, value, wide, steps).1 == -273
  {
    hide Lfsr;
  }

  /** The noise is the sequence whose next level is high exactly when two earlier levels agree: those fourteen
      and fifteen steps back, or six and seven steps back on the narrow setting. */
  lemma NoiseFollowsItsTaps(register: nat, value: int, wide: bool, steps: nat)
    requires steps >= (if wide then 15 else 7) && (value == 273 || value == -273)
    ensures High(register, value, wide, steps) <==>
            (if wide then High(register, value, wide, steps - 15) == High(register, value, wide, steps - 14)
             else High(register, value, wide, steps - 7) == High(register, value, wide, steps - 6))
  {
    hide Lfsr, Bit;
    var r := NoiseAfter(register, value, wide, steps).0;
    TapsAreBits(r);
    if wide {
      RegisterRemembers(register, value, wide, steps, 14);
      RegisterRemembers(register, value, wide, steps, 13);
    } else {
      RegisterRemembers(register, value, wide, steps, 6);
      RegisterRemembers(register, value, wide, steps, 5);
    }
    LastLevel(register, value, wide, steps);
    hide NoiseAfter;
  }

  lemma LastLevel(register: nat, value: int, wide: bool, steps: nat)
    requires steps > 0
    ensures var (r, v) := NoiseAfter(register, value, wide, steps);
      v == NoiseLevel(r, wide)
  {
    hide Lfsr, NoiseLevel;
  }

  // ----- Registers that act at once.

  lemma BitsOf(val: byte)
    ensures Bit(val, 0) == (val % 2 == 1) && Bit(val, 1) == (val / 2 % 2 == 1) && Bit(val, 2) == (val / 4 % 2 == 1)
    ensures Bit(val, 3) == (val / 8 % 2 == 1) && Bit(val, 4) == (val / 16 % 2 == 1) && Bit(val, 5) == (val / 32 % 2 == 1)
    ensures Bit(val, 6) == (val / 64 % 2 == 1) && Bit(val, 7) == (val / 128 % 2 == 1)
  {
    hide Bit;
    BitAt(val, 0);
    BitAt(val, 1);
    BitAt(val, 2);
    BitAt(val, 3);
    BitAt(val, 4);
    BitAt(val, 5);
    BitAt(val, 6);
    BitAt(val, 7);
    SmallPowers();
    hide Pow2;
  }

  lemma SmallPowers()
    ensures Pow2(0) == 1 && Pow2(1) == 2 && Pow2(2) == 4 && Pow2(3) == 8 && Pow2(4) == 16 && Pow2(5) == 32 && Pow2(6) == 64 && Pow2(7) == 128
  {
    assert Pow2(4) == 16;
  }

  /** Register 0xFF25 says which channels go to which side. */
  lemma SidesAreSet(u: Unit, val: byte, j: nat)
    requires On(u) && j < 4
    ensures var c := WriteSpec(u, 0xFF25, val).chans[j];
      c.left == Bit(val, 4 + j) && c.right == Bit(val, j) && c == u.chans[j].(left := c.left, right := c.right)
  {
    hide Bit, Sound;
    BitsOf(val);
    var w := WriteSpec(u, 0xFF25, val);
    assert w.chans == PanWritten(u.chans, val);
  }

  /** Register 0xFF24 says how loud the sides are. */
  lemma VolumesAreSet(u: Unit, left: nat, right: nat, spare: byte)
    requires On(u) && left < 8 && right < 8
    requires spare == 0 || spare == 8 || spare == 128 || spare == 136
    ensures var w := WriteSpec(u, 0xFF24, 16 * left + right + spare);
      w.chans == u.chans && w.volL == left && w.volR == right
  {
    hide Sound;
    VolumeFields(left, right, spare);
    var val: byte := 16 * left + right + spare;
    assert WriteSpec(u, 0xFF24, val) == RegisterSpec(u.(mem := u.mem[20 := val]), 20, val);
    hide WriteSpec;
  }

  lemma VolumeFields(left: nat, right: nat, spare: byte)
    requires left < 8 && right < 8 && (spare == 0 || spare == 8 || spare == 128 || spare == 136)
    ensures var val := 16 * left + right + spare; val < 256 && val / 16 % 8 == left && val % 8 == right
  {
  }

  /** A channel whose volume its register moves at once, as games of the time relied on. */
  function Rewritten(c: Chan, val: byte, times: nat): (d: Chan)
    requires c.volume <= 15
    ensures d.volume <= 15
    decreases times
  {
    if times == 0 then c else VolumeWritten(Rewritten(c, val, times - 1), val)
  }

  /** While an envelope without a period runs, each write of 8 raises the volume by one and each write of 16 by
      two, past the maximum and round. */
  lemma {:induction false} RewritesRaise(c: Chan, double: bool, times: nat)
    requires c.volume <= 15 && c.enabled && c.env.step == 0 && c.env.inc != 0
    ensures var d := Rewritten(c, if double then 0x10 else 0x08, times);
      d.volume == (c.volume + (if double then 2 * times else times)) % 16 && d.env == c.env && d.enabled
    decreases times
  {
    if times > 0 {
      RewritesRaise(c, double, times - 1);
      RaisedOnce(Rewritten(c, if double then 0x10 else 0x08, times - 1), double);
      ModAdds(c.volume + (if double then 2 * (times - 1) else times - 1), if double then 2 else 1, 16);
      hide VolumeWritten;
    }
  }

  lemma RaisedOnce(c: Chan, double: bool)
    requires c.volume <= 15 && c.enabled && c.env.step == 0 && c.env.inc != 0
    ensures var d := VolumeWritten(c, if double then 0x10 else 0x08);
      d.volume == (c.volume + (if double then 2 else 1)) % 16 && d.env == c.env && d.enabled
  {
  }

  /** Otherwise each write reflects the volume, so that every second write undoes the one before. */
  lemma {:induction false} RewritesReflect(c: Chan, val: byte, times: nat)
    requires c.volume <= 15 && c.enabled && val >= 8 && val % 8 > 0 && (c.env.step > 0 || c.env.inc == 0)
    ensures var d := Rewritten(c, val, times);
      d.volume == (if times % 2 == 0 || c.volume == 0 then c.volume else 16 - c.volume) && d.enabled
      && (d.env.step > 0 || d.env.inc == 0)
    decreases times
  {
    if times > 0 {
      RewritesReflect(c, val, times - 1);
      ReflectedOnce(Rewritten(c, val, times - 1), val);
      hide VolumeWritten;
    }
  }

  lemma ReflectedOnce(c: Chan, val: byte)
    requires c.volume <= 15 && c.enabled && val >= 8 && val % 8 > 0 && (c.env.step > 0 || c.env.inc == 0)
    ensures var d := VolumeWritten(c, val);
      d.volume == (if c.volume == 0 then 0 else 16 - c.volume) && d.enabled && d.env.step > 0
  {
  }

  /** The switch of the unit: on with the top bit, all channels and registers as they are; off without it, every
      channel silenced, every register but the wave cleared, and deaf to all registers but the switch. */
  lemma PowerSwitches(u: Unit, val: byte, addr: int, other: byte)
    requires u.Good() && 0xFF10 <= addr <= 0xFF3F && addr != 0xFF26
    ensures var w := WriteSpec(u, 0xFF26, val);
      if Bit(val, 7) then w == u.(mem := u.mem[22 := 128]) && On(w)
      else
        && !On(w) && w.Good() && (forall i | 0 <= i < 4 :: w.chans[i] == u.chans[i].(enabled := false))
        && (forall i | 0 <= i < 23 :: w.mem[i] == 0) && w.mem[23..] == u.mem[23..]
        && WriteSpec(w, addr, other) == w
  {
    BitsOf(val);
    WriteKeepsGood(u, 0xFF26, val);
    hide Bit, Sound, RegisterSpec;
  }
}
