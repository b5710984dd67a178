/** The radio state: its setters, their change notifications, and the CAT commands that drive it. */
module RadioStates {
  import opened Decimal

  datatype Vfo = Vfo(frequency: int, mode: int, smeter: int, tuningRate: int, active: bool, subOn: bool)
  datatype Tx = Tx(ptt: bool, tune: bool, power: int, swr: int)
  datatype Radio = Radio(vfoA: Vfo, vfoB: Vfo, tx: Tx)

  const DEFAULT_RADIO := Radio(
    Vfo(14225000, 1, 0, 100, true, false),
    Vfo(7040000, 2, 0, 100, false, false),
    Tx(false, false, 10, 10))

  /** `vfo[i & 1]` */
  function Get(d: Radio, vfo: int): Vfo
  {
    if vfo % 2 == 0 then d.vfoA else d.vfoB
  }

  function With(d: Radio, vfo: int, v: Vfo): Radio
  {
    if vfo % 2 == 0 then d.(vfoA := v) else d.(vfoB := v)
  }

  // ----- Setters as values -----

  datatype Update =
    | Frequency(vfo: int, hz: int)
    | Mode(vfo: int, mode: int)
    | Smeter(vfo: int, level: int)
    | TuningRate(vfo: int, rate: int)
    | SubOn(on: bool)
    | ActiveVfo(vfo: int)
    | Ptt(on: bool)
    | Tune(on: bool)
    | Power(watts: int)
    | Swr(swr: int)

  function Applied(d: Radio, u: Update): Radio
  {
    match u
    case Frequency(v, hz) => With(d, v, Get(d, v).(frequency := hz))
    case Mode(v, m) => With(d, v, Get(d, v).(mode := m))
    case Smeter(v, x) => With(d, v, Get(d, v).(smeter := x))
    case TuningRate(v, r) => With(d, v, Get(d, v).(tuningRate := r))
    case SubOn(on) => d.(vfoB := d.vfoB.(subOn := on))
    case ActiveVfo(v) =>
      if d.vfoA.active == (v == 0) then d
      else d.(vfoA := d.vfoA.(active := v == 0), vfoB := d.vfoB.(active := v != 0))
    case Ptt(on) => d.(tx := d.tx.(ptt := on))
    case Tune(on) => d.(tx := d.tx.(tune := on))
    case Power(w) => d.(tx := d.tx.(power := w))
    case Swr(s) => d.(tx := d.tx.(swr := s))
  }

  function Key(u: Update): string
  {
    match u
    case Frequency(v, _) => if v == 0 then "vfo.a.freq" else "vfo.b.freq"
    case Mode(v, _) => if v == 0 then "vfo.a.mode" else "vfo.b.mode"
    case Smeter(v, _) => if v == 0 then "vfo.a.smeter" else "vfo.b.smeter"
    case TuningRate(v, _) => if v == 0 then "vfo.a.rate" else "vfo.b.rate"
    case SubOn(_) => "vfo.b.sub_on"
    case ActiveVfo(_) => "vfo.active"
    case Ptt(_) => "tx.ptt"
    case Tune(_) => "tx.tune"
    case Power(_) => "tx.power"
    case Swr(_) => "tx.swr"
  }

  /** A setter notifies when it changes something, and only then. */
  function Notices(d: Radio, u: Update): seq<string>
  {
    if Applied(d, u) != d then [Key(u)] else []
  }

  // ----- CAT commands -----

  function K4ToMode(k4: int): Option<int>
  {
    match k4
    case 1 => Some(0)
    case 2 => Some(1)
    case 3 => Some(2)
    case 4 => Some(7)
    case 5 => Some(6)
    case 6 => Some(4)
    case 7 => Some(3)
    case 9 => Some(5)
    case _ => None
  }

  /** `command.substr(0, 2)` is the two given letters. */
  predicate StartsWith(command: string, a: char, b: char)
  {
    |command| >= 2 && command[0] == a && command[1] == b
  }

  /** The command text after its two-letter prefix, without a final semicolon. */
  function Argument(command: string): string
    requires |command| >= 2
  {
    var value := command[2..];
    if value != [] && value[|value| - 1] == ';' then value[..|value| - 1] else value
  }

  /** What a CAT command asks for; None when it is ignored. */
  function Interpret(command: string): (r: Option<Update>)
    ensures r.Some? ==> Honest(r.value) && !r.value.ActiveVfo? && (r.value.Mode? ==> 0 <= r.value.mode <= 7)
  {
    if |command| < 2 then None
    else
      var value := Argument(command);
      if StartsWith(command, 'F', 'A') && |value| >= 11 then
        match Stoll(value) case Some(hz) => Some(Frequency(0, hz)) case None => None
      else if StartsWith(command, 'F', 'B') && |value| >= 11 then
        match Stoll(value) case Some(hz) => Some(Frequency(1, hz)) case None => None
      else if StartsWith(command, 'M', 'D') && value != [] then
        match Stoi(value)
        case Some(k4) => (match K4ToMode(k4) case Some(m) => Some(Mode(0, m)) case None => None)
        case None => None
      else if StartsWith(command, 'S', 'M') && |value| >= 4 then
        match Stoi(value[1..])
        case Some(x) =>
          if value[0] == '0' then Some(Smeter(0, x)) else if value[0] == '1' then Some(Smeter(1, x)) else None
        case None => None
      else if StartsWith(command, 'T', 'Q') && value != [] then Some(Ptt(value[0] == '1'))
      else if StartsWith(command, 'P', 'C') && value != [] then
        match Stoi(value) case Some(w) => Some(Power(w)) case None => None
      else None
  }

  function Obeyed(d: Radio, command: string): Radio
  {
    match Interpret(command) case Some(u) => Applied(d, u) case None => d
  }

  // ----- What a command does, by its text -----

  /** A command of two letters and an argument, with or without its closing semicolon. */
  function Command(letters: string, a: string, closed: bool): (c: string)
    requires |letters| == 2
    ensures |c| >= 2 && c[..2] == letters
  {
    letters + a + (if closed then ";" else "")
  }

  /** Without the semicolon, the argument itself must not end in one. */
  predicate Plain(a: string, closed: bool)
  {
    !closed && a != [] ==> a[|a| - 1] != ';'
  }

  lemma ArgumentOf(letters: string, a: string, closed: bool)
    requires |letters| == 2 && Plain(a, closed)
    ensures Argument(Command(letters, a, closed)) == a
  {
    var c := Command(letters, a, closed);
    assert c[2..] == a + (if closed then ";" else "");
  }

  /** Every command of at least two characters is of this form; a shorter one does nothing. */
  lemma EveryCommand(d: Radio, c: string)
    ensures |c| >= 2 ==> exists a, closed :: Plain(a, closed) && c == Command(c[..2], a, closed)
    ensures |c| < 2 ==> Obeyed(d, c) == d
  {
    if |c| >= 2 {
      if |c| > 2 && c[|c| - 1] == ';' {
        assert Plain(c[2..|c| - 1], true) && c == Command(c[..2], c[2..|c| - 1], true);
      } else {
        assert Plain(c[2..], false) && c == Command(c[..2], c[2..], false);
      }
    }
  }

  /** FA and FB need eleven characters that begin with a 64-bit number. */
  lemma FrequencyCommand(d: Radio, a: string, closed: bool)
    requires Plain(a, closed)
    ensures Obeyed(d, Command("FA", a, closed)) ==
            if |a| >= 11 && Stoll(a).Some? then d.(vfoA := d.vfoA.(frequency := Stoll(a).value)) else d
    ensures Obeyed(d, Command("FB", a, closed)) ==
            if |a| >= 11 && Stoll(a).Some? then d.(vfoB := d.vfoB.(frequency := Stoll(a).value)) else d
  {
    hide Argument, ParseInt;
    ArgumentOf("FA", a, closed);
    ArgumentOf("FB", a, closed);
  }

  /** MD knows eight numbers. */
  lemma ModeCommand(d: Radio, a: string, closed: bool)
    requires Plain(a, closed)
    ensures var e := Obeyed(d, Command("MD", a, closed));
            && (Stoi(a) == Some(1) ==> e == d.(vfoA := d.vfoA.(mode := 0)))
            && (Stoi(a) == Some(2) ==> e == d.(vfoA := d.vfoA.(mode := 1)))
            && (Stoi(a) == Some(3) ==> e == d.(vfoA := d.vfoA.(mode := 2)))
            && (Stoi(a) == Some(7) ==> e == d.(vfoA := d.vfoA.(mode := 3)))
            && (Stoi(a) == Some(6) ==> e == d.(vfoA := d.vfoA.(mode := 4)))
            && (Stoi(a) == Some(9) ==> e == d.(vfoA := d.vfoA.(mode := 5)))
            && (Stoi(a) == Some(5) ==> e == d.(vfoA := d.vfoA.(mode := 6)))
            && (Stoi(a) == Some(4) ==> e == d.(vfoA := d.vfoA.(mode := 7)))
            && (Stoi(a).None? || Stoi(a).value !in {1, 2, 3, 4, 5, 6, 7, 9} ==> e == d)
  {
    hide Argument, ParseInt;
    ArgumentOf("MD", a, closed);
    NoNumber(-0x8000_0000, 0x7FFF_FFFF);
  }

  /** SM needs a VFO of 0 or 1 and three more characters that begin with a 32-bit number. */
  lemma SmeterCommand(d: Radio, a: string, closed: bool)
    requires Plain(a, closed)
    ensures var e := Obeyed(d, Command("SM", a, closed));
            if |a| >= 4 && Stoi(a[1..]).Some? && a[0] == '0' then e == d.(vfoA := d.vfoA.(smeter := Stoi(a[1..]).value))
            else if |a| >= 4 && Stoi(a[1..]).Some? && a[0] == '1' then e == d.(vfoB := d.vfoB.(smeter := Stoi(a[1..]).value))
            else e == d
  {
    hide Argument, ParseInt;
    ArgumentOf("SM", a, closed);
  }

  /** TQ sets PTT on for a 1, off for anything else; PC sets the power to a 32-bit number. */
  lemma TransmitCommand(d: Radio, a: string, closed: bool)
    requires Plain(a, closed)
    ensures Obeyed(d, Command("TQ", a, closed)) == if a == [] then d else d.(tx := d.tx.(ptt := a[0] == '1'))
    ensures Obeyed(d, Command("PC", a, closed)) == if Stoi(a).Some? then d.(tx := d.tx.(power := Stoi(a).value)) else d
  {
    hide Argument, ParseInt;
    ArgumentOf("TQ", a, closed);
    ArgumentOf("PC", a, closed);
    NoNumber(-0x8000_0000, 0x7FFF_FFFF);
  }

  /** Any other two letters do nothing. */
  lemma OtherCommand(d: Radio, c: string)
    requires |c| >= 2 && c[..2] != "FA" && c[..2] != "FB" && c[..2] != "MD" && c[..2] != "SM"
    requires c[..2] != "TQ" && c[..2] != "PC"
    ensures Obeyed(d, c) == d
  {
    hide Argument, ParseInt;
    assert c[..2] == [c[0], c[1]];
  }

  /** On digits alone: which S-meter, and when. */
  lemma SmeterDigits(d: Radio, vfo: char, t: string, closed: bool)
    requires t != [] && AllDigits(t)
    ensures var e := Obeyed(d, Command("SM", [vfo] + t, closed));
            if |t| >= 3 && Value(t) < 2147483648 && vfo == '0' then e == d.(vfoA := d.vfoA.(smeter := Value(t)))
            else if |t| >= 3 && Value(t) < 2147483648 && vfo == '1' then e == d.(vfoB := d.vfoB.(smeter := Value(t)))
            else e == d
  {
    assert t[|t| - 1] in t;
    assert ([vfo] + t)[1..] == t && Sign(false) + t == t;
    ParseSigned(false, t, -0x8000_0000, 0x7FFF_FFFF);
    hide ParseInt, Value, Obeyed;
    SmeterCommand(d, [vfo] + t, closed);
  }

  /** On digits alone: which frequency, and when. */
  lemma FrequencyDigits(d: Radio, t: string, closed: bool)
    requires t != [] && AllDigits(t)
    ensures Obeyed(d, Command("FA", t, closed)) ==
            if |t| >= 11 && Value(t) < 9223372036854775808 then d.(vfoA := d.vfoA.(frequency := Value(t))) else d
    ensures Obeyed(d, Command("FB", t, closed)) ==
            if |t| >= 11 && Value(t) < 9223372036854775808 then d.(vfoB := d.vfoB.(frequency := Value(t))) else d
  {
    assert t[|t| - 1] in t;
    assert Sign(false) + t == t;
    ParseSigned(false, t, -0x8000_0000_0000_0000, 0x7FFF_FFFF_FFFF_FFFF);
    hide ParseInt, Value, Obeyed;
    FrequencyCommand(d, t, closed);
  }

  // ----- What a command can change -----

  /** The fields a client can observe; which VFO is active is one field of the radio. */
  datatype Field =
    | FrequencyOf(b: bool) | ModeOf(b: bool) | SmeterOf(b: bool) | RateOf(b: bool) | SubOnOf(b: bool)
    | Activity | PttState | TuneState | PowerLevel | SwrLevel

  datatype Reading = Number(n: int) | Flag(f: bool) | Flags(f: bool, g: bool)

  function Read(d: Radio, f: Field): Reading
  {
    match f
    case FrequencyOf(b) => Number((if b then d.vfoB else d.vfoA).frequency)
    case ModeOf(b) => Number((if b then d.vfoB else d.vfoA).mode)
    case SmeterOf(b) => Number((if b then d.vfoB else d.vfoA).smeter)
    case RateOf(b) => Number((if b then d.vfoB else d.vfoA).tuningRate)
    case SubOnOf(b) => Flag((if b then d.vfoB else d.vfoA).subOn)
    case Activity => Flags(d.vfoA.active, d.vfoB.active)
    case PttState => Flag(d.tx.ptt)
    case TuneState => Flag(d.tx.tune)
    case PowerLevel => Number(d.tx.power)
    case SwrLevel => Number(d.tx.swr)
  }

  /** A field in which two different states differ: the fields miss nothing. */
  function Difference(d: Radio, e: Radio): (f: Field)
    requires d != e
    ensures Read(d, f) != Read(e, f)
  {
    if d.vfoA.active != e.vfoA.active || d.vfoB.active != e.vfoB.active then Activity
    else if d.tx != e.tx then
      if d.tx.ptt != e.tx.ptt then PttState else if d.tx.tune != e.tx.tune then TuneState
      else if d.tx.power != e.tx.power then PowerLevel else SwrLevel
    else
      var b := d.vfoA == e.vfoA;
      var v, w := if b then d.vfoB else d.vfoA, if b then e.vfoB else e.vfoA;
      if v.frequency != w.frequency then FrequencyOf(b) else if v.mode != w.mode then ModeOf(b)
      else if v.smeter != w.smeter then SmeterOf(b) else if v.tuningRate != w.tuningRate then RateOf(b)
      else SubOnOf(b)
  }

  /** The field a notification key names. */
  function Named(key: string): Option<Field>
  {
    if key == "vfo.a.freq" then Some(FrequencyOf(false)) else if key == "vfo.b.freq" then Some(FrequencyOf(true))
    else if key == "vfo.a.mode" then Some(ModeOf(false)) else if key == "vfo.b.mode" then Some(ModeOf(true))
    else if key == "vfo.a.smeter" then Some(SmeterOf(false)) else if key == "vfo.b.smeter" then Some(SmeterOf(true))
    else if key == "vfo.a.rate" then Some(RateOf(false)) else if key == "vfo.b.rate" then Some(RateOf(true))
    else if key == "vfo.b.sub_on" then Some(SubOnOf(true))
    else if key == "vfo.active" then Some(Activity)
    else if key == "tx.ptt" then Some(PttState) else if key == "tx.tune" then Some(TuneState)
    else if key == "tx.power" then Some(PowerLevel) else if key == "tx.swr" then Some(SwrLevel)
    else None
  }

  /** VFO numbers whose parity agrees with the test `vfo == 0`. */
  predicate Honest(u: Update)
  {
    match u
    case Frequency(v, _) => v == 0 || v % 2 == 1
    case Mode(v, _) => v == 0 || v % 2 == 1
    case Smeter(v, _) => v == 0 || v % 2 == 1
    case TuningRate(v, _) => v == 0 || v % 2 == 1
    case _ => true
  }

  function Target(u: Update): Field
  {
    match u
    case Frequency(v, _) => FrequencyOf(v % 2 == 1)
    case Mode(v, _) => ModeOf(v % 2 == 1)
    case Smeter(v, _) => SmeterOf(v % 2 == 1)
    case TuningRate(v, _) => RateOf(v % 2 == 1)
    case SubOn(_) => SubOnOf(true)
    case ActiveVfo(_) => Activity
    case Ptt(_) => PttState
    case Tune(_) => TuneState
    case Power(_) => PowerLevel
    case Swr(_) => SwrLevel
  }

  /** The value a setter asks for. */
  function Requested(u: Update): Reading
  {
    match u
    case Frequency(_, hz) => Number(hz)
    case Mode(_, m) => Number(m)
    case Smeter(_, x) => Number(x)
    case TuningRate(_, r) => Number(r)
    case SubOn(on) => Flag(on)
    case ActiveVfo(v) => Flags(v == 0, v != 0)
    case Ptt(on) => Flag(on)
    case Tune(on) => Flag(on)
    case Power(w) => Number(w)
    case Swr(x) => Number(x)
  }

  /** A setter changes no field but its own. */
  lemma OnlyTargetChanges(d: Radio, u: Update, f: Field)
    requires f != Target(u)
    ensures Read(Applied(d, u), f) == Read(d, f)
  {}

  /** After a setter its field reads what was asked for, as long as exactly one VFO is active. */
  lemma TargetIsSet(d: Radio, u: Update)
    requires d.vfoA.active != d.vfoB.active
    ensures Read(Applied(d, u), Target(u)) == Requested(u)
  {}

  lemma KeyNamesField(u: Update)
    ensures Named(Key(u)) == Some(Target(u)) <==> Honest(u)
  {
  }

  /** A notification names the one field that changed exactly when the VFO number is 0 or odd:
      number 2, for one, writes VFO A and reports VFO B. */
  lemma NotificationNamesChange(d: Radio, u: Update)
    requires Applied(d, u) != d
    ensures |Notices(d, u)| == 1
    ensures (forall f :: Read(Applied(d, u), f) != Read(d, f) <==> Named(Notices(d, u)[0]) == Some(f)) <==> Honest(u)
  {
    var d' := Applied(d, u);
    forall f | f != Target(u) ensures Read(d', f) == Read(d, f) { OnlyTargetChanges(d, u, f); }
    assert Read(d', Target(u)) != Read(d, Target(u)) by {
      var f := Difference(d', d);
      assert f == Target(u);
    }
    KeyNamesField(u);
  }

  /** Whatever its text, a CAT command changes at most one field; it notifies at most once, exactly when
      something changed, and the key names that field. */
  lemma CommandChangesOneField(d: Radio, command: string)
    ensures Interpret(command).None? ==> Obeyed(d, command) == d
    ensures Interpret(command).Some? ==>
              var u, d' := Interpret(command).value, Obeyed(d, command);
              && |Notices(d, u)| <= 1 && (Notices(d, u) == [] <==> d' == d)
              && (d' != d ==> forall f :: Read(d', f) != Read(d, f) <==> Named(Notices(d, u)[0]) == Some(f))
  {
    var r := Interpret(command);
    if r.Some? && Applied(d, r.value) != d {
      NotificationNamesChange(d, r.value);
    }
  }

  // ----- Invariants over runs -----

  ghost predicate Sane(d: Radio)
  {
    0 <= d.vfoA.mode <= 7 && 0 <= d.vfoB.mode <= 7 && d.vfoA.active != d.vfoB.active
  }

  datatype Stimulus = Cat(command: string) | Set(update: Update)

  function Evolved(d: Radio, run: seq<Stimulus>): Radio
  {
    if run == [] then d
    else
      var s := run[|run| - 1];
      var before := Evolved(d, run[..|run| - 1]);
      if s.Cat? then Obeyed(before, s.command) else Applied(before, s.update)
  }

  /** In every run of CAT commands and setters with listed modes, modes stay in 0..7 and exactly one VFO is active. */
  lemma {:induction false} RunStaysSane(d: Radio, run: seq<Stimulus>)
    requires Sane(d)
    requires forall s :: s in run && s.Set? && s.update.Mode? ==> 0 <= s.update.mode <= 7
    ensures Sane(Evolved(d, run))
  {
    if run != [] {
      RunStaysSane(d, run[..|run| - 1]);
      var s := run[|run| - 1];
      assert s in run;
      if s.Cat? { CommandStaysSane(Evolved(d, run[..|run| - 1]), s.command); }
    }
  }

  lemma CommandStaysSane(d: Radio, command: string)
    requires Sane(d)
    ensures Sane(Obeyed(d, command))
  {
    hide Interpret;
    var r := Interpret(command);
    if r.Some? { assert Sane(Applied(d, r.value)); }
  }

  // ----- The object -----

  class RadioState {
    var data: Radio
    var notified: seq<string>  // what the change callback has received

    constructor ()
      ensures data == DEFAULT_RADIO && notified == []
      ensures data == Radio(Vfo(14225000, 1, 0, 100, true, false), Vfo(7040000, 2, 0, 100, false, false), Tx(false, false, 10, 10))
    {
      data, notified := DEFAULT_RADIO, [];
    }

    /** What every setter does to the object. */
    twostate predicate Did(u: Update)
      reads this
    {
      data == Applied(old(data), u) && notified == old(notified) + Notices(old(data), u)
    }

    method SetFrequency(vfo: int, hz: int)
      modifies this
      ensures Did(Frequency(vfo, hz))
    {
      var v := Get(data, vfo);
      if v.frequency != hz {
        data := With(data, vfo, v.(frequency := hz));
        Notify(if vfo == 0 then "vfo.a.freq" else "vfo.b.freq");
      }
    }

    method SetMode(vfo: int, mode: int)
      modifies this
      ensures Did(Mode(vfo, mode))
    {
      var v := Get(data, vfo);
      if v.mode != mode {
        data := With(data, vfo, v.(mode := mode));
        Notify(if vfo == 0 then "vfo.a.mode" else "vfo.b.mode");
      }
    }

    method SetSmeter(vfo: int, level: int)
      modifies this
      ensures Did(Smeter(vfo, level))
    {
      var v := Get(data, vfo);
      if v.smeter != level {
        data := With(data, vfo, v.(smeter := level));
        Notify(if vfo == 0 then "vfo.a.smeter" else "vfo.b.smeter");
      }
    }

    method SetTuningRate(vfo: int, rate: int)
      modifies this
      ensures Did(TuningRate(vfo, rate))
    {
      var v := Get(data, vfo);
      if v.tuningRate != rate {
        data := With(data, vfo, v.(tuningRate := rate));
        Notify(if vfo == 0 then "vfo.a.rate" else "vfo.b.rate");
      }
    }

    method SetSubOn(on: bool)
      modifies this
      ensures Did(SubOn(on))
    {
      if data.vfoB.subOn != on {
        data := data.(vfoB := data.vfoB.(subOn := on));
        Notify("vfo.b.sub_on");
      }
    }

    method SetActiveVfo(vfo: int)
      modifies this
      ensures Did(ActiveVfo(vfo))
    {
      var newA := vfo == 0;
      if data.vfoA.active != newA {
        data := data.(vfoA := data.vfoA.(active := newA));
        data := data.(vfoB := data.vfoB.(active := !newA));
        Notify("vfo.active");
      }
    }

    method SetPtt(on: bool)
      modifies this
      ensures Did(Ptt(on))
    {
      if data.tx.ptt != on {
        data := data.(tx := data.tx.(ptt := on));
        Notify("tx.ptt");
      }
    }

    method SetTune(on: bool)
      modifies this
      ensures Did(Tune(on))
    {
      if data.tx.tune != on {
        data := data.(tx := data.tx.(tune := on));
        Notify("tx.tune");
      }
    }

    method SetPower(watts: int)
      modifies this
      ensures Did(Power(watts))
    {
      if data.tx.power != watts {
        data := data.(tx := data.tx.(power := watts));
        Notify("tx.power");
      }
    }

    method SetSwr(swr: int)
      modifies this
      ensures Did(Swr(swr))
    {
      if data.tx.swr != swr {
        data := data.(tx := data.tx.(swr := swr));
        Notify("tx.swr");
      }
    }

    method Notify(key: string)
      modifies this`notified
      ensures notified == old(notified) + [key]
    {
      notified := notified + [key];
    }

    method ParseCatCommand(command: string)
      modifies this
      ensures match Interpret(command)
              case Some(u) => Did(u)
              case None => data == old(data) && notified == old(notified)
      ensures data == Obeyed(old(data), command)
    {
      match Interpret(command)
      case None =>
      case Some(Frequency(v, hz)) => SetFrequency(v, hz);
      case Some(Mode(v, m)) => SetMode(v, m);
      case Some(Smeter(v, x)) => SetSmeter(v, x);
      case Some(Ptt(on)) => SetPtt(on);
      case Some(Power(w)) => SetPower(w);
    }
  }
}
