/** The member string of a post in a feed, "%013d:<uuid>" of (milliseconds, id): the order it
    sorts in, how it is read back, and which creation times it cannot tell apart. */
module FeedMembers {
  import opened Lex
  import opened Model

  const ZERO := '0' as int
  const COLON := ':' as int
  const DASH := '-' as int
  const LOWER_A := 'a' as int
  const UPPER_A := 'A' as int

  const MILLIS_WIDTH := 13
  const MILLIS_LIMIT := 10_000_000_000_000

  // ----- Positional notation ---------------------------------------------------------------

  datatype Radix = Dec | Hex {
    function Base(): nat { if Dec? then 10 else 16 }
    function Quot(n: nat): nat { if Dec? then n / 10 else n / 16 }
    function Rem(n: nat): (d: nat)
      ensures d < Base()
    { if Dec? then n % 10 else n % 16 }
    function Shift(n: int): int { if Dec? then 10 * n else 16 * n }
    /** The number of numerals with `width` digits. */
    function Pow(width: nat): nat {
      if width == 0 then 1 else Shift(Pow(width - 1))
    }
  }

  function Digits(n: nat, radix: Radix, width: nat): (ds: seq<int>)
    ensures |ds| == width
    ensures forall i | 0 <= i < width :: 0 <= ds[i] < radix.Base()
  {
    if width == 0 then [] else Digits(radix.Quot(n), radix, width - 1) + [radix.Rem(n)]
  }

  function Number(ds: seq<int>, radix: Radix): int {
    if |ds| == 0 then 0 else radix.Shift(Number(ds[..|ds| - 1], radix)) + ds[|ds| - 1]
  }

  lemma {:induction false} NumberOfDigits(n: nat, radix: Radix, width: nat)
    requires n < radix.Pow(width)
    ensures Number(Digits(n, radix, width), radix) == n
  {
    if width > 0 {
      NumberOfDigits(radix.Quot(n), radix, width - 1);
      assert Digits(n, radix, width)[..width - 1] == Digits(radix.Quot(n), radix, width - 1);
    }
  }

  lemma QuotRemOrder(a: nat, b: nat, radix: Radix)
    ensures a < b <==> radix.Quot(a) < radix.Quot(b) || (radix.Quot(a) == radix.Quot(b) && radix.Rem(a) < radix.Rem(b))
  {
  }

  lemma QuotFits(n: nat, radix: Radix, width: nat)
    requires n < radix.Pow(width + 1)
    ensures radix.Quot(n) < radix.Pow(width)
  {
  }

  /** One more digit: compare quotients first, remainders on a tie. */
  lemma DigitsOrderStep(p: Bytes, q: Bytes, a: nat, b: nat, radix: Radix)
    requires |p| == |q|
    requires Less(p, q) <==> radix.Quot(a) < radix.Quot(b)
    requires p == q <==> radix.Quot(a) == radix.Quot(b)
    ensures Less(p + [radix.Rem(a)], q + [radix.Rem(b)]) <==> a < b
    ensures p + [radix.Rem(a)] == q + [radix.Rem(b)] <==> a == b
  {
    var x, y := radix.Rem(a), radix.Rem(b);
    QuotRemOrder(a, b, radix);
    QuotRemOrder(b, a, radix);
    LessFields(p, q, [x], [y]);
    assert Less([x], [y]) <==> x < y;
    if p + [x] == q + [y] {
      assert (p + [x])[..|p|] == p && (q + [y])[..|p|] == q;
      assert (p + [x])[|p|] == x && (q + [y])[|p|] == y;
    }
  }

  /** Digits of equal width sort as the numbers they denote. */
  lemma {:induction false} DigitsOrder(a: nat, b: nat, radix: Radix, width: nat)
    requires a < radix.Pow(width) && b < radix.Pow(width)
    ensures Less(Digits(a, radix, width), Digits(b, radix, width)) <==> a < b
    ensures Digits(a, radix, width) == Digits(b, radix, width) <==> a == b
  {
    if width > 0 {
      hide Less;
      QuotFits(a, radix, width - 1);
      QuotFits(b, radix, width - 1);
      DigitsOrder(radix.Quot(a), radix.Quot(b), radix, width - 1);
      DigitsOrderStep(Digits(radix.Quot(a), radix, width - 1), Digits(radix.Quot(b), radix, width - 1), a, b, radix);
    }
  }

  // ----- Symbols ---------------------------------------------------------------------------

  function Symbol(d: int): int {
    if d < 10 then ZERO + d else LOWER_A + d - 10
  }

  function Symbols(ds: seq<int>): (s: Bytes)
    ensures |s| == |ds|
  {
    seq(|ds|, i requires 0 <= i < |ds| => Symbol(ds[i]))
  }

  /** Hexadecimal digits keep their order as characters. */
  lemma {:induction false} SymbolsOrder(ds: seq<int>, es: seq<int>)
    requires forall i | 0 <= i < |ds| :: 0 <= ds[i] < 16
    requires forall i | 0 <= i < |es| :: 0 <= es[i] < 16
    ensures Less(Symbols(ds), Symbols(es)) <==> Less(ds, es)
    decreases |ds|
  {
    if |ds| > 0 && |es| > 0 {
      assert Symbols(ds)[1..] == Symbols(ds[1..]) && Symbols(es)[1..] == Symbols(es[1..]);
      SymbolsOrder(ds[1..], es[1..]);
    }
  }

  // ----- UUID text form --------------------------------------------------------------------

  /** 8-4-4-4-12 grouping of thirty-two hexadecimal symbols. */
  function Dashed(h: Bytes): (s: Bytes)
    requires |h| == 32
    ensures |s| == 36
  {
    h[..8] + ([DASH] + h[8..12] + ([DASH] + h[12..16] + ([DASH] + h[16..20] + ([DASH] + h[20..]))))
  }

  function UuidText(id: Uuid): (s: Bytes)
    ensures |s| == 36
  {
    Dashed(Symbols(Digits(id, Hex, 32)))
  }

  lemma GroupOrder(a: Bytes, b: Bytes, s: Bytes, t: Bytes, s': Bytes, t': Bytes)
    requires |a| == |b|
    requires Less(s, t) <==> Less(s', t')
    requires s == t <==> s' == t'
    ensures Less(a + s, b + t) <==> Less([DASH] + a + s', [DASH] + b + t')
    ensures a + s == b + t <==> [DASH] + a + s' == [DASH] + b + t'
  {
    LessFields(a, b, s, t);
    LessFields([DASH] + a, [DASH] + b, s', t');
    LessFields([DASH], [DASH], a, b);
    assert ([DASH] + a)[1..] == a && ([DASH] + b)[1..] == b;
    if a + s == b + t {
      assert (a + s)[..|a|] == a && (a + s)[|a|..] == s && (b + t)[..|a|] == b && (b + t)[|a|..] == t;
    }
    var l, r := [DASH] + a + s', [DASH] + b + t';
    if l == r {
      assert l[1..|a| + 1] == a && l[|a| + 1..] == s' && r[1..|a| + 1] == b && r[|a| + 1..] == t';
    }
  }

  lemma DashedOrder(h: Bytes, g: Bytes)
    requires |h| == 32 && |g| == 32
    ensures Less(Dashed(h), Dashed(g)) <==> Less(h, g)
    ensures Dashed(h) == Dashed(g) <==> h == g
  {
    var h4, g4 := h[20..], g[20..];
    var h3, g3 := h[16..20] + h4, g[16..20] + g4;
    var h2, g2 := h[12..16] + h3, g[12..16] + g3;
    var h1, g1 := h[8..12] + h2, g[8..12] + g2;
    assert h == h[..8] + h1 && g == g[..8] + g1;
    var d4, e4 := [DASH] + h4, [DASH] + g4;
    var d3, e3 := [DASH] + h[16..20] + d4, [DASH] + g[16..20] + e4;
    var d2, e2 := [DASH] + h[12..16] + d3, [DASH] + g[12..16] + e3;
    var d1, e1 := [DASH] + h[8..12] + d2, [DASH] + g[8..12] + e2;
    LessFields([DASH], [DASH], h4, g4);
    assert d4[1..] == h4 && e4[1..] == g4;
    GroupOrder(h[16..20], g[16..20], h4, g4, d4, e4);
    GroupOrder(h[12..16], g[12..16], h3, g3, d3, e3);
    GroupOrder(h[8..12], g[8..12], h2, g2, d2, e2);
    assert Dashed(h) == h[..8] + d1 && Dashed(g) == g[..8] + e1;
    LessFields(h[..8], g[..8], h1, g1);
    LessFields(h[..8], g[..8], d1, e1);
    if Dashed(h) == Dashed(g) {
      assert Dashed(h)[..8] == h[..8] && Dashed(g)[..8] == g[..8];
      assert Dashed(h)[8..] == d1 && Dashed(g)[8..] == e1;
    }
  }

  lemma HexWidth()
    ensures Hex.Pow(32) == UUID_COUNT
  {
    assert Hex.Pow(8) == 0x1_0000_0000;
    assert Hex.Pow(16) == 0x1_0000_0000_0000_0000;
    assert Hex.Pow(24) == 0x1_0000_0000_0000_0000_0000_0000;
  }

  /** UUID text sorts as the UUIDs do. */
  lemma UuidTextOrder(a: Uuid, b: Uuid)
    ensures Less(UuidText(a), UuidText(b)) <==> a < b
    ensures UuidText(a) == UuidText(b) <==> a == b
  {
    HexWidth();
    var d, e := Digits(a, Hex, 32), Digits(b, Hex, 32);
    DigitsOrder(a, b, Hex, 32);
    DigitsOrder(b, a, Hex, 32);
    SymbolsOrder(d, e);
    SymbolsOrder(e, d);
    DashedOrder(Symbols(d), Symbols(e));
    LessTrichotomy(Symbols(d), Symbols(e));
  }

  // ----- Members ---------------------------------------------------------------------------

  function NumeralWidth(n: nat): nat {
    if n < 10 then 1 else 1 + NumeralWidth(n / 10)
  }

  function Max(a: int, b: int): int {
    if a < b then b else a
  }

  /** Go's %013d: at least thirteen characters, zeros between the sign and the number. */
  function Padded(n: int): Bytes {
    if n >= 0 then Symbols(Digits(n, Dec, Max(MILLIS_WIDTH, NumeralWidth(n))))
    else [DASH] + Symbols(Digits(-n, Dec, Max(MILLIS_WIDTH - 1, NumeralWidth(-n))))
  }

  function Member(k: Key): Bytes {
    Padded(k.time) + ([COLON] + UuidText(k.id))
  }

  function PostKey(createdAt: Time, id: Uuid): Key {
    Key(UnixMilli(createdAt), id)
  }

  function FeedMember(createdAt: Time, id: Uuid): Bytes {
    Member(PostKey(createdAt, id))
  }

  predicate InRange(k: Key) {
    0 <= k.time < MILLIS_LIMIT
  }

  lemma {:induction false} NumeralFits(n: nat)
    ensures n < Dec.Pow(NumeralWidth(n))
  {
    if n >= 10 { NumeralFits(n / 10); }
  }

  lemma {:induction false} PowGrows(radix: Radix, w: nat, v: nat)
    requires w <= v
    ensures 1 <= radix.Pow(w) <= radix.Pow(v)
  {
    if w < v {
      PowGrows(radix, w, v - 1);
    } else if w > 0 {
      PowGrows(radix, w - 1, w - 1);
    }
  }

  lemma DecWidth()
    ensures Dec.Pow(MILLIS_WIDTH) == MILLIS_LIMIT
  {
  }

  lemma {:induction false} NumeralNarrow(n: nat, w: nat)
    requires w >= 1 && n < Dec.Pow(w)
    ensures NumeralWidth(n) <= w
  {
    if n >= 10 && w > 1 {
      NumeralNarrow(n / 10, w - 1);
    }
  }

  lemma {:induction false} NumeralWide(n: nat, w: nat)
    requires n >= Dec.Pow(w)
    ensures NumeralWidth(n) > w
  {
    if w > 0 {
      PowGrows(Dec, 0, w - 1);
      NumeralWide(n / 10, w - 1);
    }
  }

  /** Members sort byte by byte exactly as (milliseconds, id) pairs sort. */
  lemma OrderEmbedding(a: Key, b: Key)
    requires InRange(a) && InRange(b)
    ensures Less(Member(a), Member(b)) <==> Before(a, b)
  {
    DecWidth();
    NumeralNarrow(a.time, MILLIS_WIDTH);
    NumeralNarrow(b.time, MILLIS_WIDTH);
    var d, e := Digits(a.time, Dec, MILLIS_WIDTH), Digits(b.time, Dec, MILLIS_WIDTH);
    DigitsOrder(a.time, b.time, Dec, MILLIS_WIDTH);
    NumberOfDigits(a.time, Dec, MILLIS_WIDTH);
    NumberOfDigits(b.time, Dec, MILLIS_WIDTH);
    SymbolsOrder(d, e);
    SymbolsOrder(e, d);
    LessTrichotomy(Symbols(d), Symbols(e));
    LessTrichotomy(d, e);
    LessFields(Symbols(d), Symbols(e), [COLON] + UuidText(a.id), [COLON] + UuidText(b.id));
    LessFields([COLON], [COLON], UuidText(a.id), UuidText(b.id));
    UuidTextOrder(a.id, b.id);
  }

  /** A post created a millisecond or more after another sorts after it, whatever their ids, up
      to the year 2286. */
  lemma NewerSortsLater(a: Post, b: Post)
    requires 0 <= a.createdAt && b.createdAt < 10_000_000_000_000_000_000
    requires b.createdAt - a.createdAt >= 1_000_000
    ensures Less(FeedMember(a.createdAt, a.id), FeedMember(b.createdAt, b.id))
  {
    OrderEmbedding(PostKey(a.createdAt, a.id), PostKey(b.createdAt, b.id));
  }

  /** Posts with the same creation time sort by id. */
  lemma TiesSortById(a: Post, b: Post)
    requires 0 <= a.createdAt == b.createdAt < 10_000_000_000_000_000_000
    ensures Less(FeedMember(a.createdAt, a.id), FeedMember(b.createdAt, b.id)) <==> a.id < b.id
  {
    OrderEmbedding(PostKey(a.createdAt, a.id), PostKey(b.createdAt, b.id));
  }

  /** Thirteen decimal digits, a colon, and thirty-two lower-case hexadecimal digits with dashes
      after eight, twelve, sixteen and twenty. */
  lemma MemberText(createdAt: Time, id: Uuid)
    requires 0 <= createdAt < 10_000_000_000_000_000_000
    ensures var m := FeedMember(createdAt, id);
      && |m| == 50 && m[13] == ':' as int
      && m[22] == m[27] == m[32] == m[37] == '-' as int
      && (forall i | 0 <= i < 13 :: '0' as int <= m[i] <= '9' as int)
      && (forall i | 14 <= i < 50 && i != 22 && i != 27 && i != 32 && i != 37 ::
            '0' as int <= m[i] <= '9' as int || 'a' as int <= m[i] <= 'f' as int)
  {
    hide UnixMilli;
    var t := UnixMilli(createdAt);
    DecWidth();
    NumeralNarrow(t, MILLIS_WIDTH);
    var ds, m := Digits(t, Dec, MILLIS_WIDTH), FeedMember(createdAt, id);
    assert m[..13] == Symbols(ds) && m[14..] == UuidText(id);
    assert forall i | 0 <= i < 13 :: m[i] == Symbols(ds)[i];
    UuidChars(id);
    assert forall i | 0 <= i < 36 :: m[14 + i] == UuidText(id)[i];
    forall i | 14 <= i < 50 && i != 22 && i != 27 && i != 32 && i != 37
      ensures '0' as int <= m[i] <= '9' as int || 'a' as int <= m[i] <= 'f' as int
    {
      assert m[i] == UuidText(id)[i - 14];
    }
  }

  lemma UuidChars(id: Uuid)
    ensures var u := UuidText(id);
      && u[8] == u[13] == u[18] == u[23] == DASH
      && forall i | 0 <= i < 36 && i != 8 && i != 13 && i != 18 && i != 23 ::
           '0' as int <= u[i] <= '9' as int || 'a' as int <= u[i] <= 'f' as int
  {
    var h, u := Symbols(Digits(id, Hex, 32)), UuidText(id);
    forall i | 0 <= i < 36 && i != 8 && i != 13 && i != 18 && i != 23
      ensures '0' as int <= u[i] <= '9' as int || 'a' as int <= u[i] <= 'f' as int
    {
      var dashes := if i < 8 then 0 else if i < 13 then 1 else if i < 18 then 2 else if i < 23 then 3 else 4;
      assert u[i] == h[i - dashes];
    }
  }

  lemma {:induction false} LeadingDigit(w: nat)
    requires w >= 1
    ensures Dec.Pow(w) >= 10
    ensures Digits(Dec.Pow(w) - 1, Dec, w)[0] == 9
    ensures Digits(Dec.Pow(w), Dec, w + 1)[0] == 1
  {
    if w == 1 {
      assert Digits(1, Dec, 1) == [1];
    } else {
      LeadingDigit(w - 1);
    }
  }

  /** The first fourteen-digit millisecond sorts before the last thirteen-digit one. */
  lemma OutgrownOrder()
    ensures var last, first := Key(MILLIS_LIMIT - 1, 0), Key(MILLIS_LIMIT, 0);
      Before(last, first) && Less(Member(first), Member(last)) && !Less(Member(last), Member(first))
  {
    DecWidth();
    LeadingDigit(MILLIS_WIDTH);
    NumeralNarrow(MILLIS_LIMIT - 1, MILLIS_WIDTH);
    NumeralNarrow(MILLIS_LIMIT, MILLIS_WIDTH + 1);
    NumeralWide(MILLIS_LIMIT, MILLIS_WIDTH);
    var last, first := Key(MILLIS_LIMIT - 1, 0), Key(MILLIS_LIMIT, 0);
    assert Padded(first.time)[0] == Symbol(1) && Padded(last.time)[0] == Symbol(9);
    assert Member(first)[0] == Padded(first.time)[0] && Member(last)[0] == Padded(last.time)[0];
  }

  ghost predicate SortsUpTo(bound: int) {
    forall a: Key, b: Key | 0 <= a.time < bound && 0 <= b.time < bound ::
      Less(Member(a), Member(b)) <==> Before(a, b)
  }

  /** Thirteen digits are exactly enough: the order is right for all times below a bound if
      and only if the bound is at most 10^13 milliseconds (the year 2286). */
  lemma OrderLimit(bound: int)
    ensures SortsUpTo(bound) <==> bound <= 10_000_000_000_000
  {
    hide Member;
    if bound <= MILLIS_LIMIT {
      forall a: Key, b: Key | 0 <= a.time < bound && 0 <= b.time < bound
        ensures Less(Member(a), Member(b)) <==> Before(a, b)
      {
        OrderEmbedding(a, b);
      }
    } else {
      OutgrownOrder();
      assert !SortsUpTo(bound);
    }
  }

  // ----- Reading a member back -------------------------------------------------------------

  /** strings.Cut: what follows the first separator, nothing when there is none. */
  function CutAfter(s: Bytes, sep: int): Bytes {
    if |s| == 0 then [] else if s[0] == sep then s[1..] else CutAfter(s[1..], sep)
  }

  function HexValue(c: int): Option<int> {
    if ZERO <= c < ZERO + 10 then Some(c - ZERO)
    else if LOWER_A <= c < LOWER_A + 6 then Some(c - LOWER_A + 10)
    else if UPPER_A <= c < UPPER_A + 6 then Some(c - UPPER_A + 10)
    else None
  }

  function HexValues(s: Bytes): (r: Option<seq<int>>)
    ensures r.Some? ==> |r.value| == |s| && forall i | 0 <= i < |s| :: 0 <= r.value[i] < 16
  {
    if |s| == 0 then Some([])
    else match (HexValue(s[0]), HexValues(s[1..]))
      case (Some(d), Some(ds)) => Some([d] + ds)
      case _ => None
  }

  lemma {:induction false} NumberFits(ds: seq<int>, radix: Radix)
    requires forall i | 0 <= i < |ds| :: 0 <= ds[i] < radix.Base()
    ensures 0 <= Number(ds, radix) < radix.Pow(|ds|)
  {
    if |ds| > 0 { NumberFits(ds[..|ds| - 1], radix); }
  }

  /** uuid.Parse on the 36-character form; any other length is an error here. */
  function ParseUuid(s: Bytes): Option<Uuid> {
    if |s| != 36 || s[8] != DASH || s[13] != DASH || s[18] != DASH || s[23] != DASH then None
    else match HexValues(s[..8] + s[9..13] + s[14..18] + s[19..23] + s[24..])
      case None => None
      case Some(ds) => HexWidth(); NumberFits(ds, Hex); Some(Number(ds, Hex))
  }

  lemma {:induction false} HexValuesOfSymbols(ds: seq<int>)
    requires forall i | 0 <= i < |ds| :: 0 <= ds[i] < 16
    ensures HexValues(Symbols(ds)) == Some(ds)
  {
    if |ds| > 0 {
      assert Symbols(ds)[1..] == Symbols(ds[1..]);
      assert HexValue(Symbol(ds[0])) == Some(ds[0]);
      HexValuesOfSymbols(ds[1..]);
      assert [ds[0]] + ds[1..] == ds;
    }
  }

  lemma ParseOfText(id: Uuid)
    ensures ParseUuid(UuidText(id)) == Some(id)
  {
    var ds := Digits(id, Hex, 32);
    var h := Symbols(ds);
    var s := UuidText(id);
    assert s[..8] + s[9..13] + s[14..18] + s[19..23] + s[24..] == h;
    HexValuesOfSymbols(ds);
    HexWidth();
    NumberOfDigits(id, Hex, 32);
  }

  lemma {:induction false} CutAfterClean(a: Bytes, sep: int, rest: Bytes)
    requires sep !in a
    ensures CutAfter(a + ([sep] + rest), sep) == rest
  {
    if |a| == 0 {
      assert a + ([sep] + rest) == [sep] + rest;
    } else {
      assert (a + ([sep] + rest))[1..] == a[1..] + ([sep] + rest);
      CutAfterClean(a[1..], sep, rest);
    }
  }

  lemma PaddedHasNoColon(n: int)
    ensures COLON !in Padded(n)
  {
    var ds := if n >= 0 then Digits(n, Dec, Max(MILLIS_WIDTH, NumeralWidth(n)))
              else Digits(-n, Dec, Max(MILLIS_WIDTH - 1, NumeralWidth(-n)));
    forall i | 0 <= i < |ds| ensures Symbols(ds)[i] != COLON {
    }
  }

  /** Every member is read back as the id it was made from, whatever its time. */
  lemma MemberRoundTrip(k: Key)
    ensures IdOf(Member(k)) == Some(k.id)
  {
    PaddedHasNoColon(k.time);
    CutAfterClean(Padded(k.time), COLON, UuidText(k.id));
    ParseOfText(k.id);
  }

  /** The id GetFeedPostsIds reads out of a member: what follows the first colon. */
  function IdOf(member: Bytes): Option<Uuid> {
    ParseUuid(CutAfter(member, COLON))
  }

  lemma PaddedNumber(n: int)
    ensures n >= 0 ==> Padded(n)[0] != DASH && HexValues(Padded(n)).Some? && Number(HexValues(Padded(n)).value, Dec) == n
    ensures n < 0 ==> Padded(n)[0] == DASH && HexValues(Padded(n)[1..]).Some? && Number(HexValues(Padded(n)[1..]).value, Dec) == -n
  {
    var m := if n >= 0 then n else -n;
    var w := Max(if n >= 0 then MILLIS_WIDTH else MILLIS_WIDTH - 1, NumeralWidth(m));
    NumeralFits(m);
    PowGrows(Dec, NumeralWidth(m), w);
    NumberOfDigits(m, Dec, w);
    HexValuesOfSymbols(Digits(m, Dec, w));
    if n < 0 { assert Padded(n)[1..] == Symbols(Digits(m, Dec, w)); }
  }

  /** Different keys have different members, negative and overlong times included. */
  lemma MemberInjective(a: Key, b: Key)
    requires Member(a) == Member(b)
    ensures a == b
  {
    MemberRoundTrip(a);
    MemberRoundTrip(b);
    var m, n := Member(a), Member(b);
    assert m[..|m| - 37] == Padded(a.time) && n[..|n| - 37] == Padded(b.time);
    PaddedNumber(a.time);
    PaddedNumber(b.time);
  }

  /** The added event carries nanoseconds, the deleted event and the cursor the stored
      microseconds; all of them name the same member. */
  lemma OneMemberPerPost(createdAt: Time, id: Uuid)
    ensures FeedMember(StoredTime(createdAt), id) == FeedMember(createdAt, id)
    ensures StoredTime(StoredTime(createdAt)) == StoredTime(createdAt)
  {
    StoredMillis(createdAt);
  }

  lemma StoredMillis(nanos: Time)
    ensures UnixMilli(StoredTime(nanos)) == UnixMilli(nanos)
    ensures StoredTime(StoredTime(nanos)) == StoredTime(nanos)
  {
    var micros := nanos / 1_000;
    assert micros * 1_000 / 1_000_000 == micros / 1_000;
  }
}
