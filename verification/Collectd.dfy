/**
 The collectd frame: settings and records as length-prefixed parts, where a setting that has not changed is
 not repeated. Beside the encoder stands a parser that remembers the settings, and the two undo each other.
 */
module Collectd {
  import opened Wrappers

  type Byte = x: int | 0 <= x < 256

  /** A C string: the bytes before the terminating zero. */
  type Text = s: seq<Byte> | forall i :: 0 <= i < |s| ==> s[i] != 0

  const TYPE_HOST: nat := 0
  const TYPE_PLUGIN: nat := 2
  const TYPE_PLUGIN_INSTANCE: nat := 3
  const TYPE_TYPE: nat := 4
  const TYPE_TYPE_INSTANCE: nat := 5
  const TYPE_VALUE: nat := 6
  const TYPE_TIME_HR: nat := 8
  const GAUGE: Byte := 1

  // ---- Encoding ----

  function High(n: nat): Byte { n / 256 % 256 }

  function Low(n: nat): Byte { n % 256 }

  /** ADD_STRING; the length field has 16 bits. */
  function StringPart(kind: nat, s: Text): seq<Byte>
  {
    Part(kind, 5 + |s|, s + [0])
  }

  /** Kind and length, two bytes each, and the body. */
  function Part(kind: nat, len: nat, body: seq<Byte>): (p: seq<Byte>)
    ensures |p| == 4 + |body|
  {
    [High(kind), Low(kind), High(len), Low(len)] + body
  }

  function Reversed(s: seq<Byte>): (r: seq<Byte>)
    ensures |r| == |s| && forall i :: 0 <= i < |s| ==> r[i] == s[|s| - 1 - i]
  {
    seq(|s|, i requires 0 <= i < |s| => s[|s| - 1 - i])
  }

  /** A value as it is sent: a gauge as it lies in memory, anything else with the highest byte first. */
  function Field(code: Byte, data: seq<Byte>): (f: seq<Byte>)
    ensures |f| == |data|
  {
    if code == GAUGE then data else Reversed(data)
  }

  type Word = d: seq<Byte> | |d| == 8 witness [0, 0, 0, 0, 0, 0, 0, 0]

  function Fields(code: Byte, data: seq<Word>): (f: seq<Byte>)
    ensures |f| == 8 * |data|
  {
    if data == [] then [] else Field(code, data[0]) + Fields(code, data[1..])
  }

  function Repeat(code: Byte, n: nat): (r: seq<Byte>)
    ensures |r| == n
  {
    seq(n, _ => code)
  }

  /** addRecordn, and addRecord with a single value; `partlen` is an unsigned 16-bit number. */
  function ValuesPart(code: Byte, data: seq<Word>): seq<Byte>
  {
    Part(TYPE_VALUE, 6 + |data| * 9, ValuesBody(code, data))
  }

  function ValuesBody(code: Byte, data: seq<Word>): (b: seq<Byte>)
    ensures |b| == 2 + |data| * 9
  {
    [High(|data|), Low(|data|)] + Repeat(code, |data|) + Fields(code, data)
  }

  /** Big-endian bytes of a 64-bit number. */
  function Bytes(n: nat, k: nat): (b: seq<Byte>)
    ensures |b| == k
    decreases k
  {
    if k == 0 then [] else Bytes(n / 256, k - 1) + [Low(n)]
  }

  function Number(b: seq<Byte>): nat
  {
    if b == [] then 0 else Number(b[..|b| - 1]) * 256 + b[|b| - 1]
  }

  function Power(k: nat): (p: nat)
    ensures p > 0
  {
    if k == 0 then 1 else 256 * Power(k - 1)
  }

  const WORD_BYTES: nat := 8
  const WORD: nat := 0x1_0000_0000_0000_0000

  /** A double has 53 bits. */
  const MANTISSA: nat := 0x20_0000_0000_0000

  /** How far apart doubles are at a number. */
  function Spacing(n: nat): (s: nat)
    ensures s > 0
  {
    if n < MANTISSA then 1 else 2 * Spacing(n / 2)
  }

  /** The nearest double, the even one of two that are equally near; small numbers are exact. */
  function Rounded(n: nat): (r: nat)
    ensures n < MANTISSA ==> r == n
  {
    if n < MANTISSA then n else Nearest(n, Spacing(n))
  }

  /** The multiple of s nearest to n. */
  function Nearest(n: nat, s: nat): nat
    requires s > 0
  {
    var q, rest := n / s, n % s;
    if 2 * rest < s || (2 * rest == s && q % 2 == 0) then Times(q, s) else Times(q + 1, s)
  }

  function Times(a: nat, b: nat): nat { a * b }

  /** The double 1e-9 * 2^30, times 2^52. */
  const FACTOR: nat := 0x11_2e0b_e826_d695

  /**
   A point in time, in nanoseconds since the epoch, in units of 2^-30 seconds: converted to a double,
   multiplied by one, and cut off.
   */
  function Units(date: nat): (u: nat)
    ensures u < WORD
  {
    Rounded(Rounded(date) * FACTOR) / 0x10_0000_0000_0000 % WORD
  }

  function TwoTo(k: nat): (p: nat)
    ensures p > 0
  {
    if k == 0 then 1 else 2 * TwoTo(k - 1)
  }

  /** Doubles are spaced by the power of two that leaves 53 significant bits. */
  lemma {:induction false} SpacingIs(n: nat) returns (k: nat)
    ensures Spacing(n) == TwoTo(k) && (n < 0x20_0000_0000_0000 ==> k == 0)
    ensures n >= 0x20_0000_0000_0000 ==> 0x10_0000_0000_0000 <= n / TwoTo(k) < 0x20_0000_0000_0000
  {
    if n < MANTISSA {
      k := 0;
    } else {
      var j := SpacingIs(n / 2);
      k := j + 1;
      HalfFirst(n, TwoTo(j));
      if n / 2 < MANTISSA { assert TwoTo(j) == 1; }
    }
  }

  lemma HalfFirst(n: nat, s: nat)
    requires s > 0
    ensures n / (2 * s) == n / 2 / s
  {
    var q, r := n / 2 / s, n / 2 % s;
    assert n / 2 == s * q + r && n == 2 * (n / 2) + n % 2;
    Cancels(s, q);
    DivIs(n, 2 * s, q, 2 * r + n % 2);
  }

  lemma Cancels(s: nat, q: nat)
    ensures 2 * (s * q) == (2 * s) * q
  {
  }

  lemma DivIs(n: nat, d: nat, q: nat, r: nat)
    requires d > 0 && n == d * q + r && r < d
    ensures n / d == q
  {
    var e := n / d - q;
    assert d * (n / d) + n % d == d * q + r;
    assert d * e == r - n % d by { Spread(d, n / d, q); }
    if e >= 1 { AtLeastOnce(d, e); }
    if e <= -1 { AtLeastOnce(d, -e); Spread(d, 0, e); }
  }

  lemma Spread(d: int, a: int, b: int)
    ensures d * (a - b) == d * a - d * b
  {
  }

  lemma AtLeastOnce(d: nat, e: int)
    requires e >= 1
    ensures d * e >= d
  {
  }

  /** Rounding takes the nearest multiple of the spacing, and of two that are equally near the even one. */
  lemma RoundedIs(n: nat)
    ensures IsNearest(n, Spacing(n), Rounded(n))
  {
    if n < MANTISSA {
      assert Spacing(n) == 1;
    } else {
      hide Spacing, IsNearest, Nearest;
      NearestIs(n, Spacing(n));
    }
  }

  /** A multiple of s that no other one is nearer to. */
  predicate IsNearest(n: nat, s: nat, r: nat)
    requires s > 0
  {
    && r % s == 0 && 2 * r <= 2 * n + s && 2 * n <= 2 * r + s
    && (2 * r == 2 * n + s || 2 * n == 2 * r + s ==> r / s % 2 == 0)
  }

  lemma NearestIs(n: nat, s: nat)
    requires s > 0
    ensures IsNearest(n, s, Nearest(n, s))
  {
    var q, rest := n / s, n % s;
    assert n == s * q + rest;
    Multiple(q, s);
    Multiple(q + 1, s);
    Spread(s, q, -1);
    OneTimes(s);
    assert Times(q, s) == s * q && Times(q + 1, s) == s * (q + 1) == s * q + s;
    hide Times;
  }

  lemma OneTimes(s: int)
    ensures s * -1 == -s && s * 1 == s
  {
  }

  lemma Multiple(q: nat, s: nat)
    requires s > 0
    ensures Times(q, s) % s == 0 && Times(q, s) / s == q
  {
    assert Times(q, s) == s * q + 0;
    DivIs(Times(q, s), s, q, 0);
  }

  /** The factor is the double nearest to 2^30 / 10^9, in units of 2^-52. */
  lemma FactorIs()
    ensures 0x10_0000_0000_0000 <= FACTOR < 0x20_0000_0000_0000
    ensures -1_000_000_000 <= 2 * (1_000_000_000 * FACTOR - 0x4_0000_0000_0000_0000_0000) <= 1_000_000_000
  {
  }

  /** A rounded number is off by no more than its 2^53rd part. */
  lemma RoundedNear(n: nat)
    ensures 0x20_0000_0000_0000 * Rounded(n) <= 0x20_0000_0000_0000 * n + n
    ensures 0x20_0000_0000_0000 * n <= 0x20_0000_0000_0000 * Rounded(n) + n
  {
    if n >= MANTISSA {
      RoundedIs(n);
      var k := SpacingIs(n);
      var s, q := Spacing(n), n / Spacing(n);
      assert n == s * q + n % s;
      LargeTimes(s, q, 0x10_0000_0000_0000);
      hide Rounded, Spacing;
    }
  }

  lemma LargeTimes(s: nat, q: nat, m: nat)
    requires q >= m
    ensures s * q >= s * m
  {
  }

  /**
   The time that is sent, times 10^9, is that of the caller times 2^30 up to one unit and the 2^51st part of
   it, for every date of 63 bits.
   */
  lemma UnitsAreNear(date: nat)
    requires date < 0x8000_0000_0000_0000
    ensures var off := 1_000_000_000 * Units(date) - 0x4000_0000 * date;
            var bound := date / 0x20_0000 + 1_000_000_001;
            0 <= off + bound && off <= bound
  {
    hide Rounded;
    var r := Rounded(date);
    var p := r * FACTOR;
    RoundedNear(date);
    RoundedNear(p);
    var u := Rounded(p) / 0x10_0000_0000_0000;
    assert u < WORD;
    assert Units(date) == u;
  }

  lemma {:induction false} SpacingFrom(n: nat, k: nat)
    requires 0x10_0000_0000_0000 <= n / TwoTo(k) < 0x20_0000_0000_0000
    ensures Spacing(n) == TwoTo(k)
    decreases k
  {
    if k > 0 {
      HalfFirst(n, TwoTo(k - 1));
      AtLeast(n, TwoTo(k));
      SpacingFrom(n / 2, k - 1);
    }
  }

  lemma AtLeast(n: nat, s: nat)
    requires s >= 2 && n / s >= 0x10_0000_0000_0000
    ensures n >= 0x20_0000_0000_0000
  {
    assert n == s * (n / s) + n % s;
    LargeTimes(s, n / s, 0x10_0000_0000_0000);
  }

  lemma TwoToFive(k: nat)
    ensures TwoTo(k + 5) == 32 * TwoTo(k)
  {
    assert TwoTo(k + 5) == 2 * TwoTo(k + 4) && TwoTo(k + 4) == 2 * TwoTo(k + 3);
    assert TwoTo(k + 3) == 2 * TwoTo(k + 2) && TwoTo(k + 2) == 2 * TwoTo(k + 1);
  }

  lemma TwoToSixty()
    ensures TwoTo(8) == 256 && TwoTo(60) == 0x1000_0000_0000_0000
  {
    TwoToFive(0);
    TwoToFive(5);
    TwoToFive(10);
    TwoToFive(15);
    TwoToFive(20);
    TwoToFive(25);
    TwoToFive(30);
    TwoToFive(35);
    TwoToFive(40);
    TwoToFive(45);
    TwoToFive(50);
    TwoToFive(55);
  }

  lemma RoundedWith(n: nat, k: nat, s: nat)
    requires s == TwoTo(k) && n >= 0x20_0000_0000_0000 && 0x10_0000_0000_0000 <= n / s < 0x20_0000_0000_0000
    ensures Rounded(n) == Nearest(n, s)
  {
    hide Nearest;
    SpacingFrom(n, k);
  }

  /** An example in which both roundings count: without either of them the result would be another one. */
  lemma UnitsExample()
    ensures Units(1_500_000_000_123_456_700) == 1_610_612_736_132_560_896
  {
    TwoToSixty();
    hide TwoTo;
    RoundedWith(1_500_000_000_123_456_700, 8, 256);
    assert Rounded(1_500_000_000_123_456_700) == 1_500_000_000_123_456_768;
    RoundedWith(1_500_000_000_123_456_768 * FACTOR, 60, 0x1000_0000_0000_0000);
    hide Rounded;
    assert Nearest(1_500_000_000_123_456_768 * FACTOR, 0x1000_0000_0000_0000) == 7253554918284776250066555073724416;
  }

  lemma UnitsOfEpoch()
    ensures Units(0) == 0
  {
  }

  function TimePart(date: nat): seq<Byte>
  {
    Part(TYPE_TIME_HR, 12, Bytes(Units(date), WORD_BYTES))
  }

  // ---- Parsing ----

  /** The settings in force. */
  datatype Settings = Settings(host: seq<Byte>, plugin: seq<Byte>, pluginInstance: seq<Byte>,
                               kind: seq<Byte>, instance: seq<Byte>, time: nat)

  datatype Value = Value(code: Byte, data: seq<Byte>)

  /** A record: its values, and the settings they belong to. */
  datatype Record = Record(settings: Settings, values: seq<Value>)

  datatype Parsed = Parsed(records: seq<Record>, settings: Settings)

  predicate IsText(body: seq<Byte>)
  {
    |body| > 0 && body[|body| - 1] == 0 && forall i :: 0 <= i < |body| - 1 ==> body[i] != 0
  }

  function Pair(high: Byte, low: Byte): nat
  {
    var h: int := high;
    h * 256 + low
  }

  function Values(body: seq<Byte>, n: nat, k: nat): (vs: seq<Value>)
    requires k <= n && |body| == 2 + n * 9
    ensures |vs| == n - k
    decreases n - k
  {
    if k == n then []
    else
      var code, at := body[2 + k], 2 + n + 8 * k;
      [Value(code, Field(code, body[at..at + 8]))] + Values(body, n, k + 1)
  }

  /** One part: a setting, or the values of one record. */
  function ParsePart(kind: int, body: seq<Byte>, st: Settings): Option<Parsed>
  {
    if kind == TYPE_VALUE then
      if |body| < 2 then None
      else
        var n := Pair(body[0], body[1]);
        if |body| != 2 + n * 9 then None else Some(Parsed([Record(st, Values(body, n, 0))], st))
    else if kind == TYPE_TIME_HR then
      if |body| != 8 then None else Some(Parsed([], st.(time := Number(body))))
    else if !IsText(body) then None
    else
      var s := body[..|body| - 1];
      if kind == TYPE_HOST then Some(Parsed([], st.(host := s)))
      else if kind == TYPE_PLUGIN then Some(Parsed([], st.(plugin := s)))
      else if kind == TYPE_PLUGIN_INSTANCE then Some(Parsed([], st.(pluginInstance := s)))
      else if kind == TYPE_TYPE then Some(Parsed([], st.(kind := s)))
      else if kind == TYPE_TYPE_INSTANCE then Some(Parsed([], st.(instance := s)))
      else None
  }

  function PartLength(b: seq<Byte>): int
    requires |b| >= 4
  {
    Pair(b[2], b[3])
  }

  function PartKind(b: seq<Byte>): int
    requires |b| >= 4
  {
    Pair(b[0], b[1])
  }

  /** The first part of some bytes: what it means, and where the next one starts. */
  function FirstPart(b: seq<Byte>, st: Settings): (r: Option<(Parsed, nat)>)
    ensures r.Some? ==> 4 <= r.value.1 <= |b|
  {
    if |b| < 4 || PartLength(b) < 4 || PartLength(b) > |b| then None
    else
      var p := ParsePart(PartKind(b), b[4..PartLength(b)], st);
      if p.None? then None else Some((p.value, PartLength(b)))
  }

  /** Reads parts until the bytes are used up; None if they are not a sequence of well-formed parts. */
  function Parse(b: seq<Byte>, st: Settings): Option<Parsed>
    decreases |b|
  {
    if b == [] then Some(Parsed([], st))
    else
      var first := FirstPart(b, st);
      if first.None? then None
      else
        Then(first.value.0, Parse(b[first.value.1..], first.value.0.settings))
  }

  /** One stretch after another. */
  function Then(p: Parsed, q: Option<Parsed>): Option<Parsed>
  {
    if q.None? then None else Some(Parsed(p.records + q.value.records, q.value.settings))
  }

  // ---- One part round trip ----

  lemma ParseOne(b: seq<Byte>, st: Settings)
    requires |b| >= 4 && PartLength(b) == |b|
    ensures Parse(b, st) == ParsePart(PartKind(b), b[4..], st)
  {
    hide ParsePart;
    var first := ParsePart(PartKind(b), b[4..], st);
    assert b[4..|b|] == b[4..] && b[|b|..] == [];
    if first.Some? { assert first.value.records + [] == first.value.records; }
  }

  /** Parsing goes on where it left off: the settings are all it remembers. */
  lemma {:induction false} ParseConcat(a: seq<Byte>, b: seq<Byte>, st: Settings)
    requires Parse(a, st).Some?
    ensures Parse(a + b, st) == Then(Parse(a, st).value, Parse(b, Parse(a, st).value.settings))
    decreases |a|
  {
    if a == [] {
      assert a + b == b;
      ThenNothing(st, Parse(b, st));
    } else {
      FirstStays(a, b, st);
      var first, n := FirstPart(a, st).value.0, FirstPart(a, st).value.1;
      assert (a + b)[n..] == a[n..] + b;
      ParseMore(a, st);
      ParseMore(a + b, st);
      hide Parse, FirstPart;
      ParseConcat(a[n..], b, first.settings);
      var rest := Parse(a[n..], first.settings).value;
      ThenTwice(first, rest, Parse(b, rest.settings));
    }
  }

  lemma ThenNothing(st: Settings, q: Option<Parsed>)
    ensures Then(Parsed([], st), q) == q
  {
    if q.Some? { assert [] + q.value.records == q.value.records; }
  }

  lemma ThenTwice(p: Parsed, q: Parsed, r: Option<Parsed>)
    ensures Then(p, Some(q)).Some? && Then(p, Some(q)).value.settings == q.settings
    ensures Then(p, Then(q, r)) == Then(Then(p, Some(q)).value, r)
  {
    if r.Some? { assert p.records + (q.records + r.value.records) == (p.records + q.records) + r.value.records; }
  }

  /** Parse, one part at a time. */
  lemma ParseMore(b: seq<Byte>, st: Settings)
    requires b != [] && FirstPart(b, st).Some?
    ensures var first := FirstPart(b, st).value;
            Parse(b, st) == Then(first.0, Parse(b[first.1..], first.0.settings))
  {
    hide FirstPart;
  }

  lemma FirstStays(a: seq<Byte>, b: seq<Byte>, st: Settings)
    requires FirstPart(a, st).Some?
    ensures FirstPart(a + b, st) == FirstPart(a, st)
  {
    hide ParsePart;
    assert (a + b)[4..PartLength(a)] == a[4..PartLength(a)];
  }

  /** The settings after a string part. */
  function WithText(st: Settings, kind: nat, s: seq<Byte>): Settings
  {
    if kind == TYPE_HOST then st.(host := s)
    else if kind == TYPE_PLUGIN then st.(plugin := s)
    else if kind == TYPE_PLUGIN_INSTANCE then st.(pluginInstance := s)
    else if kind == TYPE_TYPE then st.(kind := s)
    else st.(instance := s)
  }

  predicate TextKind(kind: nat) { kind == TYPE_HOST || (TYPE_PLUGIN <= kind <= TYPE_TYPE_INSTANCE) }

  /** 16 bits hold a number exactly if it is not too large; of a larger one something is lost. */
  lemma Bytes16(n: nat)
    ensures if n <= 65535 then Pair(High(n), Low(n)) == n else Pair(High(n), Low(n)) < n
  {
  }

  /** What the parser finds in the header of a part. */
  lemma PartHeader(kind: nat, len: nat, body: seq<Byte>)
    requires kind <= 65535
    ensures var b := Part(kind, len, body); b[4..] == body && PartKind(b) == kind
    ensures PartLength(Part(kind, len, body)) == Pair(High(len), Low(len))
  {
    Bytes16(kind);
    hide High, Low, Pair;
  }

  /** A part whose length fits 16 bits means what its body means. */
  lemma PartFits(kind: nat, len: nat, body: seq<Byte>, st: Settings)
    requires kind <= 65535 && len == 4 + |body| <= 65535
    ensures Parse(Part(kind, len, body), st) == ParsePart(kind, body, st)
  {
    PartHeader(kind, len, body);
    Bytes16(len);
    hide Part, High, Low, Pair, Parse, ParsePart, PartKind, PartLength;
    ParseOne(Part(kind, len, body), st);
  }

  /** A longer part is read with a shorter body, whatever follows it. */
  lemma PartTooLong(kind: nat, len: nat, body: seq<Byte>, more: seq<Byte>, st: Settings)
    requires kind <= 65535 && len == 4 + |body| > 65535
    requires forall n :: 0 <= n < |body| ==> ParsePart(kind, body[..n], st) == None
    ensures Parse(Part(kind, len, body) + more, st).None?
  {
    hide Part, High, Low, Pair, Parse, ParsePart, PartKind, PartLength;
    var p := Part(kind, len, body);
    var b := p + more;
    PartHeader(kind, len, body);
    Bytes16(len);
    SameHeader(p, more);
    var n := PartLength(b);
    if n >= 4 { assert b[4..n] == p[4..][..n - 4]; }
    FirstFails(b, st);
  }

  lemma FirstFails(b: seq<Byte>, st: Settings)
    requires |b| >= 4 && (4 <= PartLength(b) <= |b| ==> ParsePart(PartKind(b), b[4..PartLength(b)], st).None?)
    ensures Parse(b, st).None?
  {
    hide ParsePart, PartKind, PartLength;
  }

  lemma SameHeader(p: seq<Byte>, more: seq<Byte>)
    requires |p| >= 4
    ensures PartKind(p + more) == PartKind(p) && PartLength(p + more) == PartLength(p)
  {
    hide Pair;
  }

  lemma StringFits(kind: nat, s: Text, st: Settings)
    requires TextKind(kind) && 5 + |s| <= 65535
    ensures Parse(StringPart(kind, s), st) == Some(Parsed([], WithText(st, kind, s)))
  {
    PartFits(kind, 5 + |s|, s + [0], st);
    assert (s + [0])[..|s|] == s;
    hide Parse, Part;
  }

  lemma StringTooLong(kind: nat, s: Text, more: seq<Byte>, st: Settings)
    requires TextKind(kind) && 5 + |s| > 65535
    ensures Parse(StringPart(kind, s) + more, st).None?
  {
    forall n | 0 <= n < |s + [0]| ensures ParsePart(kind, (s + [0])[..n], st) == None {
      assert (s + [0])[..n] == s[..n];
    }
    hide Parse, Part, ParsePart;
    PartTooLong(kind, 5 + |s|, s + [0], more, st);
  }

  /** A string part is read back exactly when its length fits 16 bits. */
  lemma StringRoundTripIff(kind: nat, s: Text, st: Settings)
    requires TextKind(kind)
    ensures Parse(StringPart(kind, s), st) == Some(Parsed([], WithText(st, kind, s))) <==> 5 + |s| <= 65535
    ensures 5 + |s| > 65535 ==> Parse(StringPart(kind, s), st).None?
  {
    hide StringPart, Parse, WithText;
    if 5 + |s| <= 65535 {
      StringFits(kind, s, st);
    } else {
      StringTooLong(kind, s, [], st);
      assert StringPart(kind, s) + [] == StringPart(kind, s);
    }
  }

  /** The value fields are read back as the caller's memory. */
  lemma {:induction false} FieldsRead(code: Byte, data: seq<Word>, k: nat)
    requires k <= |data|
    ensures Fields(code, data)[8 * k..] == Fields(code, data[k..])
    decreases k
  {
    if k == 0 {
      assert data[0..] == data;
    } else {
      FirstOfFields(code, data);
    }
    hide Fields, Field;
    if k > 0 {
      assert data[1..][k - 1..] == data[k..];
      FieldsRead(code, data[1..], k - 1);
      Shifted(Field(code, data[0]), Fields(code, data[1..]), k);
    }
  }

  lemma FirstOfFields(code: Byte, data: seq<Word>)
    requires data != []
    ensures Fields(code, data) == Field(code, data[0]) + Fields(code, data[1..])
  {
  }

  lemma Shifted(first: seq<Byte>, rest: seq<Byte>, k: nat)
    requires |first| == 8 && k > 0 && 8 * (k - 1) <= |rest|
    ensures (first + rest)[8 * k..] == rest[8 * (k - 1)..]
  {
  }

  lemma FieldTwice(code: Byte, data: seq<Byte>)
    ensures Field(code, Field(code, data)) == data
  {
  }

  lemma FirstField(code: Byte, data: seq<Word>)
    requires data != []
    ensures Fields(code, data)[..8] == Field(code, data[0])
  {
  }

  lemma FieldAt(code: Byte, data: seq<Word>, body: seq<Byte>, k: nat)
    requires k < |data| && |body| == 2 + |data| * 9 && body[2 + |data|..] == Fields(code, data)
    ensures Field(code, body[2 + |data| + 8 * k..2 + |data| + 8 * k + 8]) == data[k]
  {
    hide Field, Fields;
    var at, all := 2 + |data| + 8 * k, Fields(code, data);
    FieldsRead(code, data, k);
    FirstField(code, data[k..]);
    assert body[at..at + 8] == body[2 + |data|..][8 * k..8 * k + 8];
    assert all[8 * k..][..8] == all[8 * k..8 * k + 8];
    FieldTwice(code, data[k]);
  }

  /** The values of a record, from the caller's memory. */
  function Listed(code: Byte, data: seq<Word>): (vs: seq<Value>)
    ensures |vs| == |data| && forall i :: 0 <= i < |data| ==> vs[i] == Value(code, data[i])
  {
    if data == [] then [] else [Value(code, data[0])] + Listed(code, data[1..])
  }

  lemma {:induction false} ValuesRead(code: Byte, data: seq<Word>, body: seq<Byte>, k: nat)
    requires k <= |data| && |body| == 2 + |data| * 9
    requires body[2..2 + |data|] == Repeat(code, |data|) && body[2 + |data|..] == Fields(code, data)
    ensures Values(body, |data|, k) == Listed(code, data[k..])
    decreases |data| - k
  {
    if k < |data| {
      assert body[2 + k] == body[2..2 + |data|][k] == code;
      FieldAt(code, data, body, k);
      assert data[k..][0] == data[k] && data[k..][1..] == data[k + 1..];
      hide Fields, Field, Repeat;
      ValuesRead(code, data, body, k + 1);
    }
  }

  /** What a values part means: one record under the settings in force. */
  function RecordOf(st: Settings, code: Byte, data: seq<Word>): Record
  {
    Record(st, Listed(code, data))
  }

  /** The count field of a values part, and what follows it. */
  lemma ValuesCount(code: Byte, data: seq<Word>)
    requires |data| <= 65535
    ensures var body := ValuesBody(code, data); Pair(body[0], body[1]) == |data|
    ensures var body := ValuesBody(code, data);
            body[2..2 + |data|] == Repeat(code, |data|) && body[2 + |data|..] == Fields(code, data)
  {
    Bytes16(|data|);
    hide High, Low, Pair, Repeat, Fields;
  }

  lemma ValuesParse(code: Byte, data: seq<Word>, st: Settings)
    requires |data| <= 65535
    ensures ParsePart(TYPE_VALUE, ValuesBody(code, data), st) == Some(Parsed([RecordOf(st, code, data)], st))
  {
    var body := ValuesBody(code, data);
    ValuesCount(code, data);
    hide ValuesBody, Fields, Repeat, Values, Listed, Pair;
    ValuesRead(code, data, body, 0);
    assert data[0..] == data;
  }

  lemma ValuesFit(code: Byte, data: seq<Word>, st: Settings)
    requires |data| <= 7281
    ensures Parse(ValuesPart(code, data), st) == Some(Parsed([RecordOf(st, code, data)], st))
  {
    PartFits(TYPE_VALUE, 6 + |data| * 9, ValuesBody(code, data), st);
    hide ValuesBody, Parse, Part, ParsePart, RecordOf;
    ValuesParse(code, data, st);
  }

  /** A count field does not fit a shorter body. */
  lemma WrongCount(body: seq<Byte>, n: nat, m: nat, st: Settings)
    requires m < |body| == 2 + n * 9 && Pair(body[0], body[1]) == n
    ensures ParsePart(TYPE_VALUE, body[..m], st).None?
  {
    if m >= 2 { assert body[..m][0] == body[0] && body[..m][1] == body[1]; }
    hide Pair, Values;
  }

  lemma ValuesTooMany(code: Byte, data: seq<Word>, more: seq<Byte>, st: Settings)
    requires 7281 < |data| <= 65535
    ensures Parse(ValuesPart(code, data) + more, st).None?
  {
    hide ValuesBody, Fields, Repeat, Pair, Parse, Part, ParsePart;
    var body, len := ValuesBody(code, data), 6 + |data| * 9;
    ValuesCount(code, data);
    forall m | 0 <= m < |body| ensures ParsePart(TYPE_VALUE, body[..m], st) == None {
      WrongCount(body, |data|, m, st);
    }
    PartTooLong(TYPE_VALUE, len, body, more, st);
  }

  /** Values are read back exactly when there are at most 7281 of them; with more, the length field wraps. */
  lemma ValuesRoundTripIff(code: Byte, data: seq<Word>, st: Settings)
    requires |data| <= 65535
    ensures Parse(ValuesPart(code, data), st) == Some(Parsed([RecordOf(st, code, data)], st)) <==> |data| <= 7281
    ensures |data| > 7281 ==> Parse(ValuesPart(code, data), st).None?
  {
    hide ValuesPart, Parse, RecordOf;
    if |data| <= 7281 {
      ValuesFit(code, data, st);
    } else {
      ValuesTooMany(code, data, [], st);
      assert ValuesPart(code, data) + [] == ValuesPart(code, data);
    }
  }

  lemma {:induction false} NumberOfBytes(n: nat, k: nat)
    requires n < Power(k)
    ensures Number(Bytes(n, k)) == n
    decreases k
  {
    if k > 0 {
      NumberOfBytes(n / 256, k - 1);
      var b := Bytes(n, k);
      assert b[..k - 1] == Bytes(n / 256, k - 1) && b[k - 1] == Low(n);
    }
  }

  lemma TimeRoundTrip(date: nat, st: Settings)
    ensures Parse(TimePart(date), st) == Some(Parsed([], st.(time := Units(date))))
  {
    hide Units, Bytes, Number, Power, Parse, Part;
    PartFits(TYPE_TIME_HR, 12, Bytes(Units(date), WORD_BYTES), st);
    PowerOfEight();
    NumberOfBytes(Units(date), WORD_BYTES);
  }

  lemma PowerOfEight()
    ensures Power(WORD_BYTES) == WORD
  {
    assert Power(4) == 0x1_0000_0000;
  }
}
