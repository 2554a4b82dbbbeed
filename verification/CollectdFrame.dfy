/** CollectdFrame: what a caller says with a sequence of calls is what a reader of the frame understands. */
module CollectdFrame {
  import opened Wrappers
  import opened Collectd

  /** The frame's fields; `host` is the name known now, which is not in the frame until the next reset. */
  datatype Frame = Frame(buffer: seq<Byte>, host: Text, plugin: Text, pluginInstance: Text,
                         kind: Text, instance: Text, date: nat)

  function WithString(f: Frame, kind: nat, s: Text): Frame { f.(buffer := f.buffer + StringPart(kind, s)) }

  /** resetFrame */
  function Reset(f: Frame): Frame
  {
    var f1 := f.(buffer := [], kind := [], instance := [], date := 0);
    var f2 := WithString(WithString(f1, TYPE_HOST, f.host), TYPE_PLUGIN, f.plugin);
    WithString(f2, TYPE_PLUGIN_INSTANCE, f.pluginInstance)
  }

  /** The constructor resets the frame before it asks for the host's name. */
  function NewFrame(plugin: Text, pluginInstance: Text, host: Text): Frame
  {
    Reset(Frame([], [], plugin, pluginInstance, [], [], 0)).(host := host)
  }

  datatype Call = SetType(s: Text) | SetTypeInstance(s: Text) | SetTimestamp(date: nat)
                | AddRecords(code: Byte, data: seq<Word>) | ResetFrame

  /** One call; a setting that has not changed is not written. */
  function After(f: Frame, c: Call): Frame
  {
    match c
    case SetType(s) => if f.kind == s then f else WithString(f.(kind := s), TYPE_TYPE, s)
    case SetTypeInstance(s) => if f.instance == s then f else WithString(f.(instance := s), TYPE_TYPE_INSTANCE, s)
    case SetTimestamp(date) => if date == f.date then f else f.(date := date, buffer := f.buffer + TimePart(date))
    case AddRecords(code, data) => f.(buffer := f.buffer + ValuesPart(code, data))
    case ResetFrame => Reset(f)
  }

  function AfterAll(f: Frame, cs: seq<Call>): Frame
  {
    if cs == [] then f else After(AfterAll(f, cs[..|cs| - 1]), cs[|cs| - 1])
  }

  // ---- What the caller means ----

  /** The records said since the last reset, and the settings in force: the last ones the caller gave. */
  datatype Said = Said(records: seq<Record>, settings: Settings)

  const NOTHING: Settings := Settings([], [], [], [], [], 0)

  function Hear(said: Said, f: Frame, c: Call): Said
  {
    match c
    case SetType(s) => said.(settings := said.settings.(kind := s))
    case SetTypeInstance(s) => said.(settings := said.settings.(instance := s))
    case SetTimestamp(date) => said.(settings := said.settings.(time := Units(date)))
    case AddRecords(code, data) => said.(records := said.records + [RecordOf(said.settings, code, data)])
    case ResetFrame => Said([], NOTHING.(host := f.host, plugin := f.plugin, pluginInstance := f.pluginInstance))
  }

  function HearAll(said: Said, f: Frame, cs: seq<Call>): Said
  {
    if cs == [] then said else Hear(HearAll(said, f, cs[..|cs| - 1]), f, cs[|cs| - 1])
  }

  predicate Fits(s: Text) { 5 + |s| <= 65535 }

  /** The lengths fit their 16-bit fields. */
  predicate CallFits(c: Call)
  {
    match c
    case SetType(s) => Fits(s)
    case SetTypeInstance(s) => Fits(s)
    case AddRecords(code, data) => |data| <= 7281
    case _ => true
  }

  predicate AllFit(cs: seq<Call>) { forall i :: 0 <= i < |cs| ==> CallFits(cs[i]) }

  /** Plugin and instance are in every frame; a host name always fits. */
  predicate NamesFit(f: Frame) { Fits(f.plugin) && Fits(f.pluginInstance) }

  /** The size of the buffer the host name is read into, terminating zero included. */
  const MAX_HOSTNAME_SIZE: nat := 128

  /** The calls since the last reset, which are all that is in the frame. */
  function SinceReset(cs: seq<Call>): seq<Call>
  {
    if cs == [] || cs[|cs| - 1].ResetFrame? then [] else SinceReset(cs[..|cs| - 1]) + [cs[|cs| - 1]]
  }

  /** A count is an unsigned 16-bit number. */
  predicate CountOk(c: Call) { c.AddRecords? ==> |c.data| <= 65535 }

  /** The frame's current settings are those a reader has in mind at its end. */
  predicate Agrees(f: Frame, said: Said)
  {
    && Parse(f.buffer, NOTHING) == Some(Parsed(said.records, said.settings))
    && said.settings.kind == f.kind && said.settings.instance == f.instance && said.settings.time == Units(f.date)
  }

  /** Adding a part adds its meaning. */
  lemma PartAdds(b: seq<Byte>, part: seq<Byte>, said: Said, more: Parsed)
    requires Parse(b, NOTHING) == Some(Parsed(said.records, said.settings))
    requires Parse(part, said.settings) == Some(more)
    ensures Parse(b + part, NOTHING) == Some(Parsed(said.records + more.records, more.settings))
  {
    ParseConcat(b, part, NOTHING);
    hide Parse;
  }

  lemma StringAdds(b: seq<Byte>, kind: nat, s: Text, said: Said)
    requires Parse(b, NOTHING) == Some(Parsed(said.records, said.settings)) && TextKind(kind) && Fits(s)
    ensures Parse(b + StringPart(kind, s), NOTHING) == Some(Parsed(said.records, WithText(said.settings, kind, s)))
  {
    hide Parse, StringPart, WithText;
    StringFits(kind, s, said.settings);
    PartAdds(b, StringPart(kind, s), said, Parsed([], WithText(said.settings, kind, s)));
    assert said.records + [] == said.records;
  }

  lemma ResetAgrees(f: Frame)
    requires NamesFit(f) && Fits(f.host)
    ensures Agrees(Reset(f), Said([], NOTHING.(host := f.host, plugin := f.plugin, pluginInstance := f.pluginInstance)))
  {
    hide Parse, StringPart, Units;
    ParseNothing();
    UnitsOfEpoch();
    var s1 := WithText(NOTHING, TYPE_HOST, f.host);
    var s2 := WithText(s1, TYPE_PLUGIN, f.plugin);
    var b1 := [] + StringPart(TYPE_HOST, f.host);
    StringAdds([], TYPE_HOST, f.host, Said([], NOTHING));
    StringAdds(b1, TYPE_PLUGIN, f.plugin, Said([], s1));
    StringAdds(b1 + StringPart(TYPE_PLUGIN, f.plugin), TYPE_PLUGIN_INSTANCE, f.pluginInstance, Said([], s2));
  }

  lemma ParseNothing()
    ensures Parse([], NOTHING) == Some(Parsed([], NOTHING))
  {
  }

  // ---- Frames that cannot be read any more ----

  /** Whatever is added to these bytes, they do not parse. */
  ghost predicate Broken(b: seq<Byte>) { forall more: seq<Byte> :: Unreadable(b, more) }

  predicate Unreadable(b: seq<Byte>, more: seq<Byte>) { Parse(b + more, NOTHING).None? }

  lemma BrokenStays(b: seq<Byte>, part: seq<Byte>)
    requires Broken(b)
    ensures Broken(b + part)
  {
    hide Parse;
    forall more: seq<Byte> ensures Unreadable(b + part, more) {
      assert (b + part) + more == b + (part + more);
      assert Unreadable(b, part + more);
    }
  }

  lemma BrokenIsUnread(b: seq<Byte>)
    requires Broken(b)
    ensures Parse(b, NOTHING).None?
  {
    hide Parse;
    assert Unreadable(b, []) && b + [] == b;
  }

  /** A part that cannot be read, whatever follows it, breaks the frame. */
  lemma PartBreaks(b: seq<Byte>, part: seq<Byte>, st: Settings)
    requires Parse(b, NOTHING).Some? && Parse(b, NOTHING).value.settings == st
    requires forall more: seq<Byte> :: Parse(part + more, st).None?
    ensures Broken(b + part)
  {
    hide Parse;
    forall more: seq<Byte> ensures Unreadable(b + part, more) {
      ParseConcat(b, part + more, NOTHING);
      assert (b + part) + more == b + (part + more);
    }
  }

  lemma StringBreaks(b: seq<Byte>, kind: nat, s: Text, st: Settings)
    requires Parse(b, NOTHING).Some? && Parse(b, NOTHING).value.settings == st && TextKind(kind) && !Fits(s)
    ensures Broken(b + StringPart(kind, s))
  {
    hide Parse, StringPart;
    forall more: seq<Byte> ensures Parse(StringPart(kind, s) + more, st).None? {
      StringTooLong(kind, s, more, st);
    }
    PartBreaks(b, StringPart(kind, s), st);
  }

  lemma ValuesBreak(b: seq<Byte>, code: Byte, data: seq<Word>, st: Settings)
    requires Parse(b, NOTHING).Some? && Parse(b, NOTHING).value.settings == st && 7281 < |data| <= 65535
    ensures Broken(b + ValuesPart(code, data))
  {
    hide Parse, ValuesPart;
    forall more: seq<Byte> ensures Parse(ValuesPart(code, data) + more, st).None? {
      ValuesTooMany(code, data, more, st);
    }
    PartBreaks(b, ValuesPart(code, data), st);
  }

  lemma ResetBreaks(f: Frame)
    requires Fits(f.host) && !NamesFit(f)
    ensures Broken(Reset(f).buffer)
  {
    hide Parse, StringPart, Broken;
    ParseNothing();
    var s1 := WithText(NOTHING, TYPE_HOST, f.host);
    var s2 := WithText(s1, TYPE_PLUGIN, f.plugin);
    var b1 := [] + StringPart(TYPE_HOST, f.host);
    var b2 := b1 + StringPart(TYPE_PLUGIN, f.plugin);
    StringAdds([], TYPE_HOST, f.host, Said([], NOTHING));
    if Fits(f.plugin) {
      StringAdds(b1, TYPE_PLUGIN, f.plugin, Said([], s1));
      StringBreaks(b2, TYPE_PLUGIN_INSTANCE, f.pluginInstance, s2);
    } else {
      StringBreaks(b1, TYPE_PLUGIN, f.plugin, s1);
      BrokenStays(b2, StringPart(TYPE_PLUGIN_INSTANCE, f.pluginInstance));
    }
  }

  // ---- Every call ----

  /** Either the frame says what was said, or something in it was too long and it cannot be read. */
  ghost predicate Keeps(f: Frame, said: Said, fine: bool)
  {
    if fine then Agrees(f, said) && Fits(f.kind) && Fits(f.instance) else Broken(f.buffer)
  }

  predicate FineAfter(f: Frame, fine: bool, c: Call) { if c.ResetFrame? then NamesFit(f) else fine && CallFits(c) }

  lemma SetTypeKeeps(f: Frame, said: Said, s: Text)
    requires Keeps(f, said, true)
    ensures Keeps(After(f, SetType(s)), Hear(said, f, SetType(s)), Fits(s))
  {
    hide Parse, StringPart, Units, Broken, Fits;
    if f.kind != s {
      if Fits(s) { StringAdds(f.buffer, TYPE_TYPE, s, said); }
      else { StringBreaks(f.buffer, TYPE_TYPE, s, said.settings); }
    }
  }

  lemma SetTypeInstanceKeeps(f: Frame, said: Said, s: Text)
    requires Keeps(f, said, true)
    ensures Keeps(After(f, SetTypeInstance(s)), Hear(said, f, SetTypeInstance(s)), Fits(s))
  {
    hide Parse, StringPart, Units, Broken, Fits;
    if f.instance != s {
      if Fits(s) { StringAdds(f.buffer, TYPE_TYPE_INSTANCE, s, said); }
      else { StringBreaks(f.buffer, TYPE_TYPE_INSTANCE, s, said.settings); }
    }
  }

  lemma SetTimestampKeeps(f: Frame, said: Said, date: nat)
    requires Keeps(f, said, true)
    ensures Keeps(After(f, SetTimestamp(date)), Hear(said, f, SetTimestamp(date)), true)
  {
    hide Parse, TimePart, Units, Fits;
    if date != f.date {
      TimeRoundTrip(date, said.settings);
      PartAdds(f.buffer, TimePart(date), said, Parsed([], said.settings.(time := Units(date))));
      assert said.records + [] == said.records;
    }
  }

  lemma AddRecordsKeeps(f: Frame, said: Said, code: Byte, data: seq<Word>)
    requires Keeps(f, said, true) && |data| <= 65535
    ensures Keeps(After(f, AddRecords(code, data)), Hear(said, f, AddRecords(code, data)), |data| <= 7281)
  {
    hide Parse, ValuesPart, Units, Broken, RecordOf, Fits;
    if |data| <= 7281 {
      ValuesFit(code, data, said.settings);
      PartAdds(f.buffer, ValuesPart(code, data), said, Parsed([RecordOf(said.settings, code, data)], said.settings));
    } else {
      ValuesBreak(f.buffer, code, data, said.settings);
    }
  }

  lemma BrokenKeeps(f: Frame, said: Said, c: Call)
    requires Keeps(f, said, false) && !c.ResetFrame?
    ensures Keeps(After(f, c), Hear(said, f, c), false)
  {
    hide Broken, StringPart, TimePart, ValuesPart;
    match c
    case SetType(s) => BrokenStays(f.buffer, StringPart(TYPE_TYPE, s));
    case SetTypeInstance(s) => BrokenStays(f.buffer, StringPart(TYPE_TYPE_INSTANCE, s));
    case SetTimestamp(date) => BrokenStays(f.buffer, TimePart(date));
    case AddRecords(code, data) => BrokenStays(f.buffer, ValuesPart(code, data));
  }

  /** After every call the frame says what the caller has said, or it has become unreadable, until the next reset. */
  lemma CallKeeps(f: Frame, said: Said, fine: bool, c: Call)
    requires Keeps(f, said, fine) && CountOk(c) && |f.host| < MAX_HOSTNAME_SIZE
    ensures Keeps(After(f, c), Hear(said, f, c), FineAfter(f, fine, c))
  {
    if c.ResetFrame? {
      if NamesFit(f) { ResetAgrees(f); } else { ResetBreaks(f); }
    } else if !fine {
      BrokenKeeps(f, said, c);
    }
    hide Keeps, After, Hear, Agrees, Fits;
    if fine && !c.ResetFrame? {
      match c
      case SetType(s) => SetTypeKeeps(f, said, s);
      case SetTypeInstance(s) => SetTypeInstanceKeeps(f, said, s);
      case SetTimestamp(date) => SetTimestampKeeps(f, said, date);
      case AddRecords(code, data) => AddRecordsKeeps(f, said, code, data);
    }
  }

  lemma SameNames(f: Frame, c: Call)
    ensures var f' := After(f, c); f'.host == f.host && f'.plugin == f.plugin && f'.pluginInstance == f.pluginInstance
  {
  }

  predicate Fine(f: Frame, cs: seq<Call>) { NamesFit(f) && AllFit(SinceReset(cs)) }

  lemma FineMore(f: Frame, cs: seq<Call>)
    requires cs != []
    ensures var n := |cs| - 1; FineAfter(f, Fine(f, cs[..n]), cs[n]) == Fine(f, cs)
  {
    hide CallFits, Fits, NamesFit, AllFit;
    var n := |cs| - 1;
    AllFitMore(SinceReset(cs[..n]), cs[n]);
    NothingFits();
  }

  lemma AllFitMore(cs: seq<Call>, c: Call)
    ensures AllFit(cs + [c]) <==> AllFit(cs) && CallFits(c)
  {
    hide CallFits;
    var all := cs + [c];
    if AllFit(all) {
      assert CallFits(all[|cs|]);
      forall i | 0 <= i < |cs| ensures CallFits(cs[i]) { assert CallFits(all[i]); }
    }
  }

  lemma NothingFits()
    ensures AllFit([])
  {
  }

  lemma {:induction false} CallsKeep(f: Frame, said: Said, cs: seq<Call>)
    requires Keeps(f, said, NamesFit(f)) && |f.host| < MAX_HOSTNAME_SIZE
    requires forall i :: 0 <= i < |cs| ==> CountOk(cs[i])
    ensures Keeps(AfterAll(f, cs), HearAll(said, f, cs), Fine(f, cs))
    ensures var f' := AfterAll(f, cs);
            f'.host == f.host && f'.plugin == f.plugin && f'.pluginInstance == f.pluginInstance
    decreases |cs|
  {
    assert cs == [] ==> Fine(f, cs) == NamesFit(f);
    hide Keeps, After, CountOk, Fine, SinceReset;
    if cs != [] {
      var n := |cs| - 1;
      var g, heard := AfterAll(f, cs[..n]), HearAll(said, f, cs[..n]);
      CallsKeep(f, said, cs[..n]);
      CallKeeps(g, heard, Fine(f, cs[..n]), cs[n]);
      SameNames(g, cs[n]);
      FineMore(f, cs);
      SameHearing(heard, f, g, cs[n]);
      SameFine(f, g, Fine(f, cs[..n]), cs[n]);
    }
  }

  lemma SameHearing(said: Said, f: Frame, g: Frame, c: Call)
    requires g.host == f.host && g.plugin == f.plugin && g.pluginInstance == f.pluginInstance
    ensures Hear(said, g, c) == Hear(said, f, c)
  {
  }

  lemma SameFine(f: Frame, g: Frame, fine: bool, c: Call)
    requires g.plugin == f.plugin && g.pluginInstance == f.pluginInstance
    ensures FineAfter(g, fine, c) == FineAfter(f, fine, c)
  {
  }

  /** What the first frame says before any call: nothing, and an empty host name. */
  function AtStart(plugin: Text, pluginInstance: Text): Said
  {
    Said([], NOTHING.(plugin := plugin, pluginInstance := pluginInstance))
  }

  /**
   For every sequence of calls: if plugin, instance and everything written since the last reset fit their
   length fields, the frame parses completely, into exactly the records added since then, each under the
   type, type instance and time last set by the caller, although a setting that was repeated is not in the
   frame a second time. Otherwise it does not parse at all. The host is missing until the first explicit
   reset.
   */
  lemma FrameSaysWhatWasMeant(plugin: Text, pluginInstance: Text, host: Text, cs: seq<Call>)
    requires |host| < MAX_HOSTNAME_SIZE && forall i :: 0 <= i < |cs| ==> CountOk(cs[i])
    ensures var f := NewFrame(plugin, pluginInstance, host);
            var said := HearAll(AtStart(plugin, pluginInstance), f, cs);
            var parsed := Parse(AfterAll(f, cs).buffer, NOTHING);
            && (parsed.Some? <==> Fits(plugin) && Fits(pluginInstance) && AllFit(SinceReset(cs)))
            && (parsed.Some? ==> parsed.value == Parsed(said.records, said.settings))
  {
    hide Parse, StringPart, Broken, AfterAll, HearAll, Units;
    var f0 := Frame([], [], plugin, pluginInstance, [], [], 0);
    var f, said := NewFrame(plugin, pluginInstance, host), AtStart(plugin, pluginInstance);
    if NamesFit(f0) { ResetAgrees(f0); } else { ResetBreaks(f0); }
    CallsKeep(f, said, cs);
    if !Fine(f, cs) { BrokenIsUnread(AfterAll(f, cs).buffer); }
  }

  predicate Resets(cs: seq<Call>) { exists i :: 0 <= i < |cs| && cs[i].ResetFrame? }

  /** The host's name is in the frame from the first explicit reset on, and not before; the other names always. */
  lemma {:induction false} NamesAreSaid(plugin: Text, pluginInstance: Text, host: Text, cs: seq<Call>)
    ensures var f := NewFrame(plugin, pluginInstance, host);
            var st, f' := HearAll(AtStart(plugin, pluginInstance), f, cs).settings, AfterAll(f, cs);
            && st.host == (if Resets(cs) then host else [])
            && st.plugin == f'.plugin == plugin && st.pluginInstance == f'.pluginInstance == pluginInstance
            && f'.host == host
    decreases |cs|
  {
    var f := NewFrame(plugin, pluginInstance, host);
    if cs != [] {
      var n := |cs| - 1;
      assert AfterAll(f, cs) == After(AfterAll(f, cs[..n]), cs[n]);
      var said := HearAll(AtStart(plugin, pluginInstance), f, cs[..n]);
      assert HearAll(AtStart(plugin, pluginInstance), f, cs) == Hear(said, f, cs[n]);
      NewNames(plugin, pluginInstance, host);
      hide AfterAll, After, HearAll, Hear, Resets, NewFrame;
      NamesAreSaid(plugin, pluginInstance, host, cs[..n]);
      HearNames(said, f, cs[n]);
      SameNames(AfterAll(f, cs[..n]), cs[n]);
      ResetsMore(cs);
    }
  }

  lemma NewNames(plugin: Text, pluginInstance: Text, host: Text)
    ensures var f := NewFrame(plugin, pluginInstance, host);
            f.host == host && f.plugin == plugin && f.pluginInstance == pluginInstance
  {
  }

  lemma HearNames(said: Said, f: Frame, c: Call)
    ensures var st, st' := said.settings, Hear(said, f, c).settings;
            && st'.host == (if c.ResetFrame? then f.host else st.host)
            && st'.plugin == (if c.ResetFrame? then f.plugin else st.plugin)
            && st'.pluginInstance == (if c.ResetFrame? then f.pluginInstance else st.pluginInstance)
  {
    hide Units;
  }

  lemma ResetsMore(cs: seq<Call>)
    requires cs != []
    ensures var n := |cs| - 1; Resets(cs) <==> Resets(cs[..n]) || cs[n].ResetFrame?
  {
    var n := |cs| - 1;
    if i :| 0 <= i < n && cs[i].ResetFrame? { assert cs[..n][i] == cs[i]; }
  }

  // ---- The frame in memory ----

  lemma LengthBytes(n: nat)
    ensures High(n % 0x1_0000) == High(n) && Low(n % 0x1_0000) == Low(n)
  {
    var q, r := n / 0x1_0000, n % 0x1_0000;
    assert n == 256 * (256 * q) + r;
    Quotient(256 * q, r);
    Quotient(q, r / 256);
  }

  lemma Quotient(a: nat, b: nat)
    ensures (256 * a + b) / 256 == a + b / 256 && (256 * a + b) % 256 == b % 256
  {
  }

  lemma {:induction false} FieldsMore(code: Byte, data: seq<Word>, j: nat)
    requires j < |data|
    ensures Fields(code, data[..j + 1]) == Fields(code, data[..j]) + Field(code, data[j])
    decreases j
  {
    hide Field;
    if j == 0 {
      assert data[..1] == [data[0]] && data[..0] == [];
      assert Fields(code, [data[0]]) == Field(code, data[0]) + Fields(code, []);
    } else {
      FieldsMore(code, data[1..], j - 1);
      assert data[..j + 1][1..] == data[1..][..j] && data[..j][1..] == data[1..][..j - 1];
      assert Fields(code, data[..j + 1]) == Field(code, data[0]) + Fields(code, data[1..][..j]);
      assert Fields(code, data[..j]) == Field(code, data[0]) + Fields(code, data[1..][..j - 1]);
    }
  }

  lemma Grouped(a: seq<Byte>, b: seq<Byte>, c: seq<Byte>, d: seq<Byte>)
    ensures a + b + c + d == a + (b + c + d)
  {
  }

  lemma SmallBytes(n: nat)
    requires n < 256
    ensures High(n) == 0 && Low(n) == n
  {
  }

  lemma ValuesAreParts(code: Byte, data: seq<Word>)
    ensures ([0, 6, High(6 + |data| * 9), Low(6 + |data| * 9), High(|data|), Low(|data|)] + Repeat(code, |data|)
             + Fields(code, data)) == ValuesPart(code, data)
  {
    hide High, Low, Repeat, Fields;
    SmallBytes(TYPE_VALUE);
    assert ValuesPart(code, data) == [0, 6, High(6 + |data| * 9), Low(6 + |data| * 9)] + ValuesBody(code, data);
  }

  lemma OneValue(code: Byte, data: Word)
    ensures [0, 6, 0, 15, 0, 1, code] + Field(code, data) == ValuesPart(code, [data])
  {
    hide High, Low, ValuesPart, Field;
    ValuesAreParts(code, [data]);
    SmallBytes(15);
    SmallBytes(1);
    assert Repeat(code, 1) == [code];
    assert Fields(code, [data]) == Field(code, data) + Fields(code, []);
  }

  lemma TimeIsPart(date: nat)
    ensures [0, 8, 0, 12] + Bytes(Units(date), WORD_BYTES) == TimePart(date)
  {
    hide High, Low, Bytes, Units;
    SmallBytes(TYPE_TIME_HR);
    SmallBytes(12);
  }

  // ---- The bytes on the wire ----

  /** A value as collectd expects it: the bytes of a gauge (code 1) as they lie, any other with the last first. */
  predicate OnWire(code: Byte, data: Word, sent: seq<Byte>)
  {
    sent == if code == 1 then data else [data[7], data[6], data[5], data[4], data[3], data[2], data[1], data[0]]
  }

  /** A string part: kind and length with two bytes each, the characters, and a zero. */
  predicate TextOnWire(kind: Byte, s: Text, sent: seq<Byte>)
  {
    sent == [0, kind, (5 + |s|) / 256 % 256, (5 + |s|) % 256] + s + [0]
  }

  lemma FieldOnWire(code: Byte, data: Word)
    ensures OnWire(code, data, Field(code, data))
  {
  }

  lemma {:induction false} FieldsOnWire(code: Byte, data: seq<Word>, j: nat)
    requires j < |data|
    ensures OnWire(code, data[j], Fields(code, data)[8 * j..8 * j + 8])
    decreases j
  {
    var rest := Fields(code, data[1..]);
    assert Fields(code, data) == Field(code, data[0]) + rest;
    FieldOnWire(code, data[0]);
    hide Field, Fields, OnWire;
    if j == 0 {
      assert (Field(code, data[0]) + rest)[..8] == Field(code, data[0]);
    } else {
      FieldsOnWire(code, data[1..], j - 1);
      Behind(Field(code, data[0]), rest, 8 * j);
    }
  }

  lemma Behind(a: seq<Byte>, b: seq<Byte>, at: nat)
    requires |a| == 8 && 8 <= at && at <= |b|
    ensures (a + b)[at..at + 8] == b[at - 8..at]
  {
  }

  /** A values part: kind 6, the length modulo 2^16, the count, a code for each value, and the values. */
  ghost predicate ValuesOnWire(code: Byte, data: seq<Word>, sent: seq<Byte>)
  {
    var n := |data|;
    var len := (6 + n * 9) % 0x1_0000;
    && |sent| == 6 + n * 9
    && sent[..6] == [0, 6, len / 256, len % 256, n / 256 % 256, n % 256]
    && (forall k :: 6 <= k < 6 + n ==> sent[k] == code)
    && (forall j :: 0 <= j < n ==> OnWire(code, data[j], sent[6 + n + 8 * j..6 + n + 8 * j + 8]))
  }

  lemma ValuesSent(code: Byte, data: seq<Word>)
    ensures ValuesOnWire(code, data, ValuesPart(code, data))
  {
    hide High, Low, Fields, OnWire;
    var n := |data|;
    var head := [0, 6, High(6 + n * 9), Low(6 + n * 9), High(n), Low(n)];
    var p, codes, fields := ValuesPart(code, data), Repeat(code, n), Fields(code, data);
    ValuesAreParts(code, data);
    assert p == head + codes + fields;
    LengthBytes(6 + n * 9);
    HeadBytes(6 + n * 9, n);
    assert p[..6] == head;
    forall k | 6 <= k < 6 + n ensures p[k] == code { assert p[k] == codes[k - 6]; }
    forall j | 0 <= j < n ensures OnWire(code, data[j], p[6 + n + 8 * j..6 + n + 8 * j + 8]) {
      FieldsOnWire(code, data, j);
      assert p[6 + n + 8 * j..6 + n + 8 * j + 8] == fields[8 * j..8 * j + 8];
    }
  }

  lemma HeadBytes(len: nat, n: nat)
    ensures High(len) == len % 0x1_0000 / 256 && Low(len) == len % 0x1_0000 % 256
    ensures High(n) == n / 256 % 256 && Low(n) == n % 256
  {
    LengthBytes(len);
  }

  lemma TextSent(kind: nat, s: Text)
    requires kind < 256
    ensures TextOnWire(kind, s, StringPart(kind, s))
  {
    assert [High(kind), Low(kind), High(5 + |s|), Low(5 + |s|)] + (s + [0])
        == [0, kind, (5 + |s|) / 256 % 256, (5 + |s|) % 256] + s + [0];
  }

  /** What has been added to a buffer. */
  function Added(was: seq<Byte>, now: seq<Byte>): seq<Byte>
    requires |was| <= |now|
  {
    now[|was|..]
  }

  lemma AddedIs(was: seq<Byte>, more: seq<Byte>)
    ensures was <= was + more && Added(was, was + more) == more
  {
  }

  lemma TimeSent(date: nat)
    ensures TimePart(date)[..4] == [0, 8, 0, 12] && |TimePart(date)| == 12
    ensures Number(TimePart(date)[4..]) == Units(date)
  {
    hide Bytes, Units, Number, Power;
    TimeIsPart(date);
    PowerOfEight();
    NumberOfBytes(Units(date), WORD_BYTES);
    assert TimePart(date)[4..] == Bytes(Units(date), WORD_BYTES);
  }

  class Encoder {
    const plugin: Text
    const pluginInstance: Text
    var hostname: Text
    var currentType: Text
    var currentTypeInstance: Text
    var currentDate: nat
    var buffer: seq<Byte>

    ghost function Value(): Frame
      reads this
    {
      Frame(buffer, hostname, plugin, pluginInstance, currentType, currentTypeInstance, currentDate)
    }

    constructor (plugin: Text, pluginInstance: Text, host: Text)
      ensures Value() == NewFrame(plugin, pluginInstance, host)
      ensures hostname == host && this.plugin == plugin && this.pluginInstance == pluginInstance
    {
      this.plugin, this.pluginInstance, hostname := plugin, pluginInstance, [];
      currentType, currentTypeInstance, currentDate, buffer := [], [], 0, [];
      new;
      ResetNow();
      hostname := host;
    }

    /** ADD_STRING: the characters are copied up to and including the terminating zero. */
    method AddString(kind: nat, s: Text)
      modifies this`buffer
      ensures buffer == old(buffer) + StringPart(kind, s)
      ensures old(buffer) <= buffer && (kind < 256 ==> TextOnWire(kind, s, Added(old(buffer), buffer)))
    {
      if kind < 256 { TextSent(kind, s); }
      AddedIs(buffer, StringPart(kind, s));
      buffer := buffer + [High(kind), Low(kind), High(5 + |s|), Low(5 + |s|)];
      var c := s + [0];
      ghost var start := buffer;
      hide High, Low;
      var i := 0;
      while true
        invariant 0 <= i <= |s| && buffer == start + s[..i]
        decreases |s| - i
      {
        buffer := buffer + [c[i]];
        if c[i] == 0 {
          break;
        }
        i := i + 1;
      }
      assert i == |s| && s[..i] == s;
    }

    method ResetNow()
      modifies this
      ensures Value() == Reset(old(Value()))
      ensures exists h, p, i ::
                && buffer == h + p + i && TextOnWire(0, hostname, h) && TextOnWire(2, plugin, p)
                && TextOnWire(3, pluginInstance, i)
      ensures currentType == currentTypeInstance == [] && currentDate == 0 && hostname == old(hostname)
    {
      TextSent(TYPE_HOST, hostname);
      TextSent(TYPE_PLUGIN, plugin);
      TextSent(TYPE_PLUGIN_INSTANCE, pluginInstance);
      hide TextOnWire, StringPart;
      buffer, currentType, currentTypeInstance, currentDate := [], [], [], 0;
      AddString(TYPE_HOST, hostname);
      AddString(TYPE_PLUGIN, plugin);
      AddString(TYPE_PLUGIN_INSTANCE, pluginInstance);
    }

    method SetType(s: Text)
      modifies this`buffer, this`currentType
      ensures Value() == After(old(Value()), Call.SetType(s))
      ensures currentType == s && (s == old(currentType) ==> buffer == old(buffer))
      ensures s != old(currentType) ==> old(buffer) <= buffer && TextOnWire(4, s, Added(old(buffer), buffer))
    {
      if currentType == s {
        return;
      }
      currentType := s;
      AddString(TYPE_TYPE, s);
    }

    method SetTypeInstance(s: Text)
      modifies this`buffer, this`currentTypeInstance
      ensures Value() == After(old(Value()), Call.SetTypeInstance(s))
      ensures currentTypeInstance == s && (s == old(currentTypeInstance) ==> buffer == old(buffer))
      ensures s != old(currentTypeInstance) ==> old(buffer) <= buffer && TextOnWire(5, s, Added(old(buffer), buffer))
    {
      if currentTypeInstance == s {
        return;
      }
      currentTypeInstance := s;
      AddString(TYPE_TYPE_INSTANCE, s);
    }

    /** Pushes the eight bytes of a value, a gauge in the order of memory, anything else reversed. */
    method PushField(code: Byte, data: Word)
      modifies this`buffer
      ensures buffer == old(buffer) + Field(code, data)
    {
      if code == GAUGE {
        buffer := buffer + data;
      } else {
        for i := 0 to 8
          invariant buffer == old(buffer) + Reversed(data)[..i]
        {
          buffer := buffer + [data[7 - i]];
        }
        assert Reversed(data)[..8] == Reversed(data);
      }
    }

    method AddRecord(code: Byte, data: Word)
      modifies this`buffer
      ensures Value() == After(old(Value()), AddRecords(code, [data]))
      ensures old(buffer) <= buffer && |buffer| == |old(buffer)| + 15
      ensures Added(old(buffer), buffer)[..7] == [0, 6, 0, 15, 0, 1, code]
      ensures OnWire(code, data, Added(old(buffer), buffer)[7..])
    {
      FieldOnWire(code, data);
      AddedIs(buffer, [0, 6, 0, 15, 0, 1, code] + Field(code, data));
      hide OnWire, Field;
      buffer := buffer + [0, 6, 0, 15, 0, 1, code];
      PushField(code, data);
      OneValue(code, data);
      assert buffer == old(buffer) + ([0, 6, 0, 15, 0, 1, code] + Field(code, data));
    }

    method PushCodes(code: Byte, n: nat)
      modifies this`buffer
      ensures buffer == old(buffer) + Repeat(code, n)
    {
      for j := 0 to n
        invariant buffer == old(buffer) + Repeat(code, j)
      {
        assert Repeat(code, j) + [code] == Repeat(code, j + 1);
        buffer := buffer + [code];
      }
    }

    method PushFields(code: Byte, data: seq<Word>)
      modifies this`buffer
      ensures buffer == old(buffer) + Fields(code, data)
    {
      hide Field;
      for j := 0 to |data|
        invariant buffer == old(buffer) + Fields(code, data[..j])
      {
        FieldsMore(code, data, j);
        PushField(code, data[j]);
      }
      assert data[..|data|] == data;
    }

    /** addRecordn: the length field is computed in 16 bits. */
    method AddRecordN(code: Byte, data: seq<Word>)
      requires |data| <= 65535
      modifies this`buffer
      ensures Value() == After(old(Value()), AddRecords(code, data))
      ensures old(buffer) <= buffer && ValuesOnWire(code, data, Added(old(buffer), buffer))
    {
      ValuesSent(code, data);
      AddedIs(buffer, ValuesPart(code, data));
      hide ValuesOnWire, Added;
      hide High, Low, Field, Fields, Repeat, ValuesPart;
      var n := |data|;
      var partlen := (6 + n * 9) % 0x1_0000;
      LengthBytes(6 + n * 9);
      ghost var header := [0, 6, High(6 + n * 9), Low(6 + n * 9), High(n), Low(n)];
      buffer := buffer + [0, 6, High(partlen), Low(partlen), High(n), Low(n)];
      PushCodes(code, n);
      PushFields(code, data);
      ValuesAreParts(code, data);
      Grouped(old(buffer), header, Repeat(code, n), Fields(code, data));
    }

    method SetTimestamp(date: nat)
      modifies this`buffer, this`currentDate
      ensures Value() == After(old(Value()), Call.SetTimestamp(date))
      ensures currentDate == date && (date == old(currentDate) ==> buffer == old(buffer))
      ensures date != old(currentDate) ==>
                && old(buffer) <= buffer && |buffer| == |old(buffer)| + 12
                && Added(old(buffer), buffer)[..4] == [0, 8, 0, 12]
                && Number(Added(old(buffer), buffer)[4..]) == Units(date)
    {
      TimeSent(date);
      AddedIs(buffer, TimePart(date));
      hide Added, Number, Units, Bytes;
      if date == currentDate {
        return;
      }
      currentDate := date;
      TimeIsPart(date);
      buffer := buffer + [0, 8, 0, 12];
      buffer := buffer + Bytes(Units(date), WORD_BYTES);
    }
  }
}
