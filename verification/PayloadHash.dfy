/**
 * The content signature of a canonical event: nine fields joined by `|`, digested, written in hex.
 * Number rendering and the digest are parameters, of which only the stated facts are used.
 */
module PayloadHash {
  import opened Wrappers
  import opened Sequences

  const SEP := '|'
  const NULL := "null"

  type Byte = b: int | -128 <= b < 128

  /** The fields of a canonical event that downstream consumers react to. */
  datatype Content = Content(
    eventTime: int, latitude: real, longitude: real,
    severity: Option<real>, severityScale: Option<string>, depthKm: Option<real>,
    place: Option<string>, sourceUrl: Option<string>, status: string)
  {
    ghost predicate NumbersIn(nums: iset<real>) {
      && latitude in nums && longitude in nums
      && (severity.Some? ==> severity.value in nums)
      && (depthKm.Some? ==> depthKm.value in nums)
    }
  }

  datatype Format = Format(long: int -> string, double: real -> string, digest: string -> seq<Byte>)
  {
    /**
     * Whole numbers, and the reals in `nums`, render injectively, without the separator and never as
     * the word for null. `nums` stands for the numbers a double can hold.
     */
    ghost predicate Valid(nums: iset<real>) {
      && (forall x, y :: long(x) == long(y) ==> x == y)
      && (forall x, y :: x in nums && y in nums && double(x) == double(y) ==> x == y)
      && (forall x :: SEP !in long(x) && long(x) != NULL)
      && (forall x :: x in nums ==> SEP !in double(x) && double(x) != NULL)
    }

    /** No two of `texts` have the same digest. */
    ghost predicate CollisionFree(texts: iset<string>) {
      forall s, t :: s in texts && t in texts && digest(s) == digest(t) ==> s == t
    }
  }

  function Text(s: Option<string>): string {
    if s.Some? then s.value else NULL
  }

  function Number(fmt: Format, x: Option<real>): string {
    if x.Some? then fmt.double(x.value) else NULL
  }

  /** A field, the separator, and what follows, joined character by character. */
  function Field(field: string, rest: string): string {
    if field == "" then [SEP] + rest else [field[0]] + Field(field[1..], rest)
  }

  lemma {:induction false} FieldIsConcatenation(field: string, rest: string)
    ensures Field(field, rest) == field + [SEP] + rest
    decreases |field|
  {
    if field != "" {
      FieldIsConcatenation(field[1..], rest);
      assert field == [field[0]] + field[1..];
    }
  }

  function FreeText(c: Content): string {
    Field(Text(c.place), Text(c.sourceUrl))
  }

  function Canonical(fmt: Format, c: Content): string {
    Field(fmt.long(c.eventTime),
    Field(fmt.double(c.latitude),
    Field(fmt.double(c.longitude),
    Field(Number(fmt, c.severity),
    Field(Text(c.severityScale),
    Field(Number(fmt, c.depthKm),
    Field(FreeText(c), c.status)))))))
  }

  // ---------------------------------------------------------------------------
  // Hexadecimal

  function HexDigit(n: int): char
    requires 0 <= n < 16
  {
    "0123456789abcdef"[n]
  }

  /** `(b >> 4) & 0xF` and `b & 0xF` of a signed byte: `/` and `%` floor for a positive divisor. */
  function HexByte(b: Byte): string {
    [HexDigit((b / 16) % 16), HexDigit(b % 16)]
  }

  function Hex(digest: seq<Byte>): string {
    if digest == [] then "" else Hex(DropLast(digest)) + HexByte(Last(digest))
  }

  method HexString(digest: seq<Byte>) returns (hex: string)
    ensures hex == Hex(digest)
    ensures |hex| == 2 * |digest|
  {
    hex := "";
    for i := 0 to |digest|
      invariant hex == Hex(digest[..i])
      invariant |hex| == 2 * i
    {
      var b := digest[i];
      assert DropLast(digest[..i + 1]) == digest[..i];
      hex := hex + [HexDigit((b / 16) % 16)];
      hex := hex + [HexDigit(b % 16)];
    }
    assert digest[..|digest|] == digest;
  }

  function DigitValue(c: char): int {
    if '0' <= c <= '9' then c as int - '0' as int else c as int - 'a' as int + 10
  }

  /** Reads hex back, two digits to a signed byte; anything else reads as nothing. */
  function Unhex(hex: string): seq<int> {
    if |hex| < 2 then []
    else
      var n := 16 * DigitValue(hex[|hex| - 2]) + DigitValue(hex[|hex| - 1]);
      Unhex(hex[..|hex| - 2]) + [if n < 128 then n else n - 256]
  }

  lemma UnhexByte(front: string, b: Byte)
    ensures Unhex(front + HexByte(b)) == Unhex(front) + [b]
  {
    assert (front + HexByte(b))[..|front|] == front;
    ByteRoundTrip(b);
  }

  /** The hex text decodes to the digest it was made from, for every signed byte. */
  lemma {:induction false} HexRoundTrip(digest: seq<Byte>)
    ensures Unhex(Hex(digest)) == digest
    ensures forall c :: c in Hex(digest) ==> '0' <= c <= '9' || 'a' <= c <= 'f'
    decreases |digest|
  {
    if digest != [] {
      HexRoundTrip(DropLast(digest));
      UnhexByte(Hex(DropLast(digest)), Last(digest));
      ByteRoundTrip(Last(digest));
      DropLastThenLast(digest);
    }
  }

  lemma DigitRoundTrip(n: int)
    requires 0 <= n < 16
    ensures DigitValue(HexDigit(n)) == n
    ensures '0' <= HexDigit(n) <= '9' || 'a' <= HexDigit(n) <= 'f'
  {
  }

  lemma ByteRoundTrip(b: Byte)
    ensures var n := 16 * DigitValue(HexByte(b)[0]) + DigitValue(HexByte(b)[1]);
            (if n < 128 then n else n - 256) == b
    ensures forall c :: c in HexByte(b) ==> '0' <= c <= '9' || 'a' <= c <= 'f'
  {
    DigitRoundTrip((b / 16) % 16);
    DigitRoundTrip(b % 16);
  }

  function Of(fmt: Format, c: Content): string {
    Hex(fmt.digest(Canonical(fmt, c)))
  }

  // ---------------------------------------------------------------------------
  // What the canonical string determines

  function FirstSep(s: string): (i: nat)
    ensures i <= |s| && SEP !in s[..i]
    ensures i < |s| ==> s[i] == SEP
  {
    if s == [] || s[0] == SEP then 0 else 1 + FirstSep(s[1..])
  }

  lemma {:induction false} FirstSepOfField(a: string, x: string)
    requires SEP !in a
    ensures FirstSep(Field(a, x)) == |a|
    decreases |a|
  {
    if a != [] {
      assert a[0] in a && SEP !in a[1..];
      FirstSepOfField(a[1..], x);
      assert Field(a, x)[1..] == Field(a[1..], x);
    }
  }

  lemma SplitFirst(a: string, x: string, b: string, y: string)
    requires SEP !in a && SEP !in b
    requires Field(a, x) == Field(b, y)
    ensures a == b && x == y
  {
    FieldIsConcatenation(a, x);
    FieldIsConcatenation(b, y);
    FirstSepOfField(a, x);
    FirstSepOfField(b, y);
    assert a == Field(a, x)[..|a|] && b == Field(b, y)[..|b|];
    assert x == Field(a, x)[|a| + 1..] && y == Field(b, y)[|b| + 1..];
  }

  lemma SplitLast(x: string, a: string, y: string, b: string)
    requires SEP !in a && SEP !in b
    requires Field(x, a) == Field(y, b)
    ensures a == b && x == y
  {
    FieldIsConcatenation(x, a);
    FieldIsConcatenation(y, b);
    LastIndexOfJoined(x, SEP, a);
    LastIndexOfJoined(y, SEP, b);
    assert x == Field(x, a)[..|x|] && y == Field(y, b)[..|y|];
    assert a == Field(x, a)[|x| + 1..] && b == Field(y, b)[|y| + 1..];
  }

  /** The six fields left of `place` have no separator, nor has the status; neither scale nor status is free text. */
  predicate WellFormed(c: Content) {
    && SEP !in Text(c.severityScale)
    && c.severityScale != Some(NULL)
    && SEP !in c.status
  }

  /** Nothing in the free texts can be mistaken for a separator before the status, or for null. */
  predicate Unambiguous(c: Content) {
    && SEP !in Text(c.sourceUrl)
    && c.place != Some(NULL)
    && c.sourceUrl != Some(NULL)
  }

  function OrNull(s: string): Option<string> {
    if s == NULL then None else Some(s)
  }

  /** The one unambiguous content a reader of the canonical string would recover. */
  function Reading(c: Content): Content {
    var url := Text(c.sourceUrl);
    var i := LastIndexOf(url, SEP);
    if i < 0 then c.(place := OrNull(Text(c.place)), sourceUrl := OrNull(url))
    else c.(place := OrNull(Field(Text(c.place), url[..i])), sourceUrl := OrNull(url[i + 1..]))
  }

  lemma OrNullInverts(s: string)
    ensures Text(OrNull(s)) == s && OrNull(s) != Some(NULL)
  {
  }

  lemma ReadingIsUnambiguous(c: Content)
    ensures Unambiguous(Reading(c))
    ensures FreeText(Reading(c)) == FreeText(c)
  {
    var place, url := Text(c.place), Text(c.sourceUrl);
    var i := LastIndexOf(url, SEP);
    if i < 0 {
      assert url[i + 1..] == url;
      OrNullInverts(place);
      OrNullInverts(url);
    } else {
      OrNullInverts(Field(place, url[..i]));
      OrNullInverts(url[i + 1..]);
      FieldMoves(place, url, i);
    }
  }

  lemma FieldMoves(place: string, url: string, i: nat)
    requires i < |url| && url[i] == SEP
    ensures Field(Field(place, url[..i]), url[i + 1..]) == Field(place, url)
  {
    FieldIsConcatenation(place, url[..i]);
    FieldIsConcatenation(Field(place, url[..i]), url[i + 1..]);
    FieldIsConcatenation(place, url);
    assert url == url[..i] + [SEP] + url[i + 1..];
  }

  lemma DoubleIsOneField(fmt: Format, nums: iset<real>, x: real)
    requires fmt.Valid(nums) && x in nums
    ensures SEP !in fmt.double(x) && fmt.double(x) != NULL
  {
  }

  lemma DoubleInjective(fmt: Format, nums: iset<real>, x: real, y: real)
    requires fmt.Valid(nums) && x in nums && y in nums && fmt.double(x) == fmt.double(y)
    ensures x == y
  {
  }

  lemma NumberIsOneField(fmt: Format, nums: iset<real>, x: Option<real>)
    requires fmt.Valid(nums) && (x.Some? ==> x.value in nums)
    ensures SEP !in Number(fmt, x)
    ensures x.Some? ==> Number(fmt, x) != NULL
  {
    if x.Some? {
      DoubleIsOneField(fmt, nums, x.value);
    } else {
      assert SEP !in NULL;
    }
  }

  lemma NumberInjective(fmt: Format, nums: iset<real>, x: Option<real>, y: Option<real>)
    requires fmt.Valid(nums) && (x.Some? ==> x.value in nums) && (y.Some? ==> y.value in nums)
    requires Number(fmt, x) == Number(fmt, y)
    ensures x == y
  {
    NumberIsOneField(fmt, nums, x);
    NumberIsOneField(fmt, nums, y);
    if x.Some? && y.Some? {
      DoubleInjective(fmt, nums, x.value, y.value);
    }
  }

  lemma {:induction false} UnambiguousContentIsDetermined(fmt: Format, nums: iset<real>, c: Content, d: Content)
    requires fmt.Valid(nums) && c.NumbersIn(nums) && d.NumbersIn(nums)
    requires WellFormed(c) && WellFormed(d) && Unambiguous(c) && Unambiguous(d)
    requires Canonical(fmt, c) == Canonical(fmt, d)
    ensures c == d
  {
    NumberIsOneField(fmt, nums, c.severity);
    NumberIsOneField(fmt, nums, d.severity);
    NumberIsOneField(fmt, nums, c.depthKm);
    NumberIsOneField(fmt, nums, d.depthKm);
    var c7, d7 := Field(FreeText(c), c.status), Field(FreeText(d), d.status);
    var c6, d6 := Field(Number(fmt, c.depthKm), c7), Field(Number(fmt, d.depthKm), d7);
    var c5, d5 := Field(Text(c.severityScale), c6), Field(Text(d.severityScale), d6);
    var c4, d4 := Field(Number(fmt, c.severity), c5), Field(Number(fmt, d.severity), d5);
    var c3, d3 := Field(fmt.double(c.longitude), c4), Field(fmt.double(d.longitude), d4);
    var c2, d2 := Field(fmt.double(c.latitude), c3), Field(fmt.double(d.latitude), d3);
    SplitFirst(fmt.long(c.eventTime), c2, fmt.long(d.eventTime), d2);
    SplitFirst(fmt.double(c.latitude), c3, fmt.double(d.latitude), d3);
    SplitFirst(fmt.double(c.longitude), c4, fmt.double(d.longitude), d4);
    SplitFirst(Number(fmt, c.severity), c5, Number(fmt, d.severity), d5);
    SplitFirst(Text(c.severityScale), c6, Text(d.severityScale), d6);
    SplitFirst(Number(fmt, c.depthKm), c7, Number(fmt, d.depthKm), d7);
    SplitLast(FreeText(c), c.status, FreeText(d), d.status);
    SplitLast(Text(c.place), Text(c.sourceUrl), Text(d.place), Text(d.sourceUrl));
    NumberInjective(fmt, nums, c.severity, d.severity);
    NumberInjective(fmt, nums, c.depthKm, d.depthKm);
  }

  /** A content and its reading have one canonical string. */
  lemma ReadingKeepsCanonical(fmt: Format, nums: iset<real>, c: Content)
    requires c.NumbersIn(nums) && WellFormed(c)
    ensures Canonical(fmt, Reading(c)) == Canonical(fmt, c)
    ensures Reading(c).NumbersIn(nums) && WellFormed(Reading(c)) && Unambiguous(Reading(c))
  {
    ReadingIsUnambiguous(c);
    var r := Reading(c);
    assert r == c.(place := r.place, sourceUrl := r.sourceUrl);
  }

  /** Exactly which contents share a canonical string, whatever separators the free texts hold. */
  lemma {:induction false} CanonicalEqualIff(fmt: Format, nums: iset<real>, c: Content, d: Content)
    requires fmt.Valid(nums) && c.NumbersIn(nums) && d.NumbersIn(nums) && WellFormed(c) && WellFormed(d)
    ensures Canonical(fmt, c) == Canonical(fmt, d) <==> Reading(c) == Reading(d)
  {
    ReadingKeepsCanonical(fmt, nums, c);
    ReadingKeepsCanonical(fmt, nums, d);
    if Canonical(fmt, c) == Canonical(fmt, d) {
      UnambiguousContentIsDetermined(fmt, nums, Reading(c), Reading(d));
    }
  }

  lemma SplitUrlIsShorter(c: Content, url: string)
    requires url == Text(c.sourceUrl) && SEP in url
    ensures |Text(Reading(c).sourceUrl)| < |url|
  {
    var i := LastIndexOf(url, SEP);
    assert url[i + 1..] == url || i >= 0;
    OrNullInverts(url[i + 1..]);
  }

  /** Texts with a bar between each two. */
  function Barred(texts: seq<string>): string
    requires texts != []
  {
    if |texts| == 1 then texts[0] else texts[0] + "|" + Barred(texts[1..])
  }

  lemma BarredStep(text: string, rest: seq<string>)
    requires rest != []
    ensures Barred([text] + rest) == Field(text, Barred(rest))
  {
    FieldIsConcatenation(text, Barred(rest));
    assert ([text] + rest)[1..] == rest && "|" == [SEP];
  }

  lemma BarredStart(s: seq<string>, rest: seq<string>)
    requires |s| == 9 && rest == s[3..]
    ensures Barred(s) == Field(s[0], Field(s[1], Field(s[2], Barred(rest))))
  {
    BarredStep(s[2], rest);
    assert s[2..] == [s[2]] + rest;
    BarredStep(s[1], s[2..]);
    assert s[1..] == [s[1]] + s[2..];
    BarredStep(s[0], s[1..]);
    assert s == [s[0]] + s[1..];
  }

  lemma FreeTextThenStatus(place: string, url: string, status: string)
    ensures Field(Field(place, url), status) == Barred([place, url, status])
  {
    FieldIsConcatenation(place, url);
    FieldIsConcatenation(Field(place, url), status);
    assert [place, url, status] == [place] + ([url] + [status]);
    BarredStep(url, [status]);
    BarredStep(place, [url] + [status]);
    FieldIsConcatenation(url, status);
    FieldIsConcatenation(place, Field(url, status));
    assert place + [SEP] + url + [SEP] + status == place + [SEP] + (url + [SEP] + status);
  }

  /** The texts of the nine fields, in the order of the signature; a missing field reads `null`. */
  function NineTexts(fmt: Format, c: Content): seq<string> {
    [fmt.long(c.eventTime), fmt.double(c.latitude), fmt.double(c.longitude),
     if c.severity.None? then "null" else fmt.double(c.severity.value),
     if c.severityScale.None? then "null" else c.severityScale.value,
     if c.depthKm.None? then "null" else fmt.double(c.depthKm.value),
     if c.place.None? then "null" else c.place.value,
     if c.sourceUrl.None? then "null" else c.sourceUrl.value,
     c.status]
  }

  /** The canonical string is the nine texts, in this order, with a bar between each two. */
  lemma {:induction false} CanonicalIsBarred(fmt: Format, c: Content)
    ensures Canonical(fmt, c) == Barred(NineTexts(fmt, c))
  {
    var s := NineTexts(fmt, c);
    FreeTextThenStatus(s[6], s[7], s[8]);
    assert s[6..] == [s[6], s[7], s[8]];
    BarredStep(s[5], s[6..]);
    assert s[5..] == [s[5]] + s[6..];
    BarredStep(s[4], s[5..]);
    assert s[4..] == [s[4]] + s[5..];
    BarredStep(s[3], s[4..]);
    assert s[3..] == [s[3]] + s[4..];
    BarredStart(s, s[3..]);
  }

  /** Two contents read alike exactly when they differ at most in the free texts and those join alike. */
  lemma {:induction false} ReadingEqualIff(c: Content, d: Content)
    ensures Reading(c) == Reading(d) <==>
            && c.eventTime == d.eventTime && c.latitude == d.latitude && c.longitude == d.longitude
            && c.severity == d.severity && c.severityScale == d.severityScale && c.depthKm == d.depthKm
            && c.status == d.status
            && Text(c.place) + "|" + Text(c.sourceUrl) == Text(d.place) + "|" + Text(d.sourceUrl)
  {
    ReadingIsUnambiguous(c);
    ReadingIsUnambiguous(d);
    FieldIsConcatenation(Text(c.place), Text(c.sourceUrl));
    FieldIsConcatenation(Text(d.place), Text(d.sourceUrl));
    var r, s := Reading(c), Reading(d);
    assert r == c.(place := r.place, sourceUrl := r.sourceUrl) && s == d.(place := s.place, sourceUrl := s.sourceUrl);
    if FreeText(c) == FreeText(d) {
      SplitLast(Text(r.place), Text(r.sourceUrl), Text(s.place), Text(s.sourceUrl));
    }
  }

  /** The contents that read back as themselves are the unambiguous ones. */
  lemma ReadsAsItselfIff(c: Content)
    ensures Reading(c) == c <==> Unambiguous(c)
  {
    var url := Text(c.sourceUrl);
    if SEP in url {
      SplitUrlIsShorter(c, url);
    } else {
      assert LastIndexOf(url, SEP) == -1;
      assert Reading(c) == c.(place := OrNull(Text(c.place)), sourceUrl := OrNull(url));
    }
  }

  /** Where the digest does not collide, equal hashes mean equal readings, and conversely. */
  lemma {:induction false} HashEqualIff(
      fmt: Format, nums: iset<real>, texts: iset<string>, c: Content, d: Content)
    requires fmt.Valid(nums) && c.NumbersIn(nums) && d.NumbersIn(nums) && WellFormed(c) && WellFormed(d)
    requires fmt.CollisionFree(texts) && Canonical(fmt, c) in texts && Canonical(fmt, d) in texts
    ensures Of(fmt, c) == Of(fmt, d) <==> Reading(c) == Reading(d)
  {
    CanonicalEqualIff(fmt, nums, c, d);
    HexRoundTrip(fmt.digest(Canonical(fmt, c)));
    HexRoundTrip(fmt.digest(Canonical(fmt, d)));
  }

  /** A separator in the URL makes two different contents hash alike. */
  lemma SeparatorInUrlCollides(fmt: Format, c: Content)
    ensures var c1 := c.(place := Some("a"), sourceUrl := Some("b|c"));
            var c2 := c.(place := Some("a|b"), sourceUrl := Some("c"));
            c1 != c2 && Of(fmt, c1) == Of(fmt, c2)
  {
    var c1 := c.(place := Some("a"), sourceUrl := Some("b|c"));
    var c2 := c.(place := Some("a|b"), sourceUrl := Some("c"));
    FieldIsConcatenation("a", "b|c");
    FieldIsConcatenation("a|b", "c");
    assert FreeText(c1) == "a|b|c" == FreeText(c2);
  }
}
