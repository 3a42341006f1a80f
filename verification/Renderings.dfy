/**
 * The proofs ask that numbers, events and texts render injectively. Here are renderings that do, on
 * the numbers with at most four decimals: what is asked can be met.
 */
module Renderings {
  import opened Wrappers
  import opened Sequences
  import opened UsgsEvents
  import PayloadHash

  // ---------------------------------------------------------------------------
  // Numbers

  function Scaled(x: real): int {
    (x * 10000.0).Floor
  }

  ghost const GRID: iset<real> := iset x: real | x == Scaled(x) as real / 10000.0

  function Ones(n: nat): (s: string)
    ensures |s| == n && forall c :: c in s ==> c == '1'
  {
    if n == 0 then "" else Ones(n - 1) + "1"
  }

  function Unary(n: int): (s: string)
    ensures forall c :: c in s ==> c in "-1"
    ensures '-' in s <==> n < 0
    ensures |s| == if n < 0 then 1 - n else n
  {
    if n < 0 then "-" + Ones(-n) else Ones(n)
  }

  lemma UnaryInjective(m: int, n: int)
    requires Unary(m) == Unary(n)
    ensures m == n
  {
  }

  lemma UnaryIsOneField(n: int)
    ensures PayloadHash.SEP !in Unary(n) && Unary(n) != PayloadHash.NULL
  {
    assert PayloadHash.SEP !in "-1";
    assert PayloadHash.NULL[0] in PayloadHash.NULL && PayloadHash.NULL[0] !in "-1";
  }

  // ---------------------------------------------------------------------------
  // A digest

  /** Each character as three digits to the base 128. */
  function Bytes(s: string): (bytes: seq<PayloadHash.Byte>)
    ensures |bytes| == 3 * |s|
  {
    if s == "" then []
    else
      var n := Last(s) as int;
      Bytes(DropLast(s)) + [n / 16384, n / 128 % 128, n % 128]
  }

  lemma DigitsDetermine(m: int, n: int)
    requires m / 16384 == n / 16384 && m / 128 % 128 == n / 128 % 128 && m % 128 == n % 128
    ensures m == n
  {
    assert m / 128 == 128 * (m / 16384) + m / 128 % 128;
    assert n / 128 == 128 * (n / 16384) + n / 128 % 128;
  }

  lemma {:induction false} BytesInjective(s: string, t: string)
    requires Bytes(s) == Bytes(t)
    ensures s == t
    decreases |s|
  {
    if s != "" {
      var m, n := Last(s) as int, Last(t) as int;
      var b := Bytes(s);
      assert b[|b| - 3] == m / 16384 == n / 16384;
      assert b[|b| - 2] == m / 128 % 128 == n / 128 % 128;
      assert b[|b| - 1] == m % 128 == n % 128;
      DigitsDetermine(m, n);
      assert Bytes(DropLast(s)) == b[..|b| - 3] == Bytes(DropLast(t));
      BytesInjective(DropLast(s), DropLast(t));
      DropLastThenLast(s);
      DropLastThenLast(t);
    }
  }

  // ---------------------------------------------------------------------------
  // Events

  /** Each character marked, and a full stop at the end. */
  function Quoted(s: string): string {
    if s == "" then "." else ['x', s[0]] + Quoted(s[1..])
  }

  lemma {:induction false} QuotedSplits(a: string, x: string, b: string, y: string)
    requires Quoted(a) + x == Quoted(b) + y
    ensures a == b && x == y
    decreases |a|
  {
    var text := Quoted(a) + x;
    if a == "" || b == "" {
      assert text[0] == Quoted(a)[0] == Quoted(b)[0];
      assert x == text[1..] && y == (Quoted(b) + y)[1..];
    } else {
      assert text[1] == a[0] == b[0];
      assert text[2..] == Quoted(a[1..]) + x && (Quoted(b) + y)[2..] == Quoted(b[1..]) + y;
      QuotedSplits(a[1..], x, b[1..], y);
      assert a == [a[0]] + a[1..] && b == [b[0]] + b[1..];
    }
  }

  function Joined(fields: seq<string>): string {
    if fields == [] then "" else Quoted(fields[0]) + Joined(fields[1..])
  }

  lemma {:induction false} JoinedInjective(fs: seq<string>, gs: seq<string>)
    requires |fs| == |gs| && Joined(fs) == Joined(gs)
    ensures fs == gs
    decreases |fs|
  {
    if fs != [] {
      QuotedSplits(fs[0], Joined(fs[1..]), gs[0], Joined(gs[1..]));
      JoinedInjective(fs[1..], gs[1..]);
      assert fs == [fs[0]] + fs[1..] && gs == [gs[0]] + gs[1..];
    }
  }

  function OptText(s: Option<string>): string {
    if s.Some? then "x" + s.value else ""
  }

  function OptNumber(x: Option<real>): string {
    if x.Some? then "x" + Unary(Scaled(x.value)) else ""
  }

  lemma OptTextInjective(s: Option<string>, t: Option<string>)
    requires OptText(s) == OptText(t)
    ensures s == t
  {
    if s.Some? && t.Some? {
      assert s.value == OptText(s)[1..] && t.value == OptText(t)[1..];
    }
  }

  lemma NumberInjective(x: real, y: real)
    requires x in GRID && y in GRID && Unary(Scaled(x)) == Unary(Scaled(y))
    ensures x == y
  {
    UnaryInjective(Scaled(x), Scaled(y));
  }

  lemma OptNumberInjective(x: Option<real>, y: Option<real>)
    requires (x.Some? ==> x.value in GRID) && (y.Some? ==> y.value in GRID) && OptNumber(x) == OptNumber(y)
    ensures x == y
  {
    if x.Some? && y.Some? {
      assert OptNumber(x)[1..] == Unary(Scaled(x.value)) && OptNumber(y)[1..] == Unary(Scaled(y.value));
      NumberInjective(x.value, y.value);
    }
  }

  function Fields(e: UsgsEvent): seq<string> {
    [e.sourceEventId, OptNumber(e.magnitude), Unary(Scaled(e.latitude)), Unary(Scaled(e.longitude)),
     OptNumber(e.depthKm), OptText(e.place), Unary(e.eventTimeMs), Unary(e.updatedMs), OptText(e.sourceUrl)]
  }

  function EventText(e: UsgsEvent): string {
    Joined(Fields(e))
  }

  lemma EventTextInjective(d: UsgsEvent, e: UsgsEvent)
    requires d.NumbersIn(GRID) && e.NumbersIn(GRID) && EventText(d) == EventText(e)
    ensures d == e
  {
    var f, g := Fields(d), Fields(e);
    JoinedInjective(f, g);
    assert f[0] == g[0] && f[1] == g[1] && f[2] == g[2] && f[3] == g[3] && f[4] == g[4];
    assert f[5] == g[5] && f[6] == g[6] && f[7] == g[7] && f[8] == g[8];
    OptNumberInjective(d.magnitude, e.magnitude);
    NumberInjective(d.latitude, e.latitude);
    NumberInjective(d.longitude, e.longitude);
    OptNumberInjective(d.depthKm, e.depthKm);
    OptTextInjective(d.place, e.place);
    UnaryInjective(d.eventTimeMs, e.eventTimeMs);
    UnaryInjective(d.updatedMs, e.updatedMs);
    OptTextInjective(d.sourceUrl, e.sourceUrl);
  }

  // ---------------------------------------------------------------------------
  // What is asked can be met

  /** A number format and a digest as the content signature needs them. */
  lemma FormatExists() returns (fmt: PayloadHash.Format)
    ensures fmt.Valid(GRID) && forall texts: iset<string> :: fmt.CollisionFree(texts)
  {
    fmt := PayloadHash.Format((n: int) => Unary(n), (x: real) => Unary(Scaled(x)), (s: string) => Bytes(s));
    forall x, y | fmt.long(x) == fmt.long(y)
      ensures x == y
    {
      UnaryInjective(x, y);
    }
    forall x, y | x in GRID && y in GRID && fmt.double(x) == fmt.double(y)
      ensures x == y
    {
      NumberInjective(x, y);
    }
    forall n: int
      ensures PayloadHash.SEP !in Unary(n) && Unary(n) != PayloadHash.NULL
    {
      UnaryIsOneField(n);
    }
    forall s, t | fmt.digest(s) == fmt.digest(t)
      ensures s == t
    {
      BytesInjective(s, t);
    }
  }

  /** An event encoding and a digest as the marker needs them. */
  lemma CodecExists() returns (c: Codec)
    ensures c.Faithful(iset e: UsgsEvent | e.NumbersIn(GRID))
  {
    c := Codec((ms: int) => Unary(ms), (e: UsgsEvent) => EventText(e), (s: string) => Bytes(s));
    forall d: UsgsEvent, e: UsgsEvent | d.NumbersIn(GRID) && e.NumbersIn(GRID) && c.json(d) == c.json(e)
      ensures d == e
    {
      EventTextInjective(d, e);
    }
    forall d: UsgsEvent, e: UsgsEvent | c.digest(c.json(d)) == c.digest(c.json(e))
      ensures c.json(d) == c.json(e)
    {
      BytesInjective(c.json(d), c.json(e));
    }
  }
}
