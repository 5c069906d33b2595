/**
 * The pure part of `getFilenameStr`: the calendar fields of the current UTC
 * instant are cast to fixed-width unsigned integers and formatted as
 * `%04d_%02d_%02d_%02d_%02d_%02d_%03d.iq` into an 80-byte buffer.
 * Reading the clock and `gmtime` are not modelled: their results are the
 * input `Calendar`.
 */
module FileNames {

  import opened Options

  type U8 = x: int | 0 <= x < 0x100
  type U16 = x: int | 0 <= x < 0x1_0000

  /** What `gmtime` and the millisecond difference deliver, before any cast. */
  datatype Calendar = Calendar(
    tmYear: int, tmMon: int, tmMday: int, tmHour: int, tmMin: int, tmSec: int, elapsedMs: int)

  /** The seven fields exactly as they are passed to `snprintf`. */
  datatype Stamp = Stamp(
    year: U16, month: U8, day: U8, hour: U8, minute: U8, second: U8, millisecond: U16)

  /** Size of `filenameStr`; `snprintf` keeps at most 79 characters and a terminator. */
  const FilenameCapacity: nat := 80

  /** Field widths of the format, in order: `%04d`, five `%02d`, `%03d`. */
  const Widths: seq<nat> := [4, 2, 2, 2, 2, 2, 3]

  /** Conversion of an `int` to an unsigned C++ type of `bits` bits: reduction modulo 2^bits. */
  function Unsigned(x: int, modulus: nat): (r: int)
    requires modulus > 0
    ensures 0 <= r < modulus
    ensures 0 <= x < modulus ==> r == x
  {
    x % modulus
  }

  /**
   * Lines 30-36: `tm_year + 1900` and the milliseconds go to `uint16_t`, the
   * rest to `uint8_t`. For every value `gmtime` produces the casts lose
   * nothing, and every field fits the width it is printed in.
   */
  function StampOf(c: Calendar): (st: Stamp)
    ensures GmtimeRange(c) ==>
      InRange(st) && st.year == c.tmYear + 1900 && st.month == c.tmMon + 1 && st.day == c.tmMday &&
      st.hour == c.tmHour && st.minute == c.tmMin && st.second == c.tmSec && st.millisecond == c.elapsedMs
  {
    Stamp(Unsigned(c.tmYear + 1900, 0x1_0000), Unsigned(c.tmMon + 1, 0x100),
          Unsigned(c.tmMday, 0x100), Unsigned(c.tmHour, 0x100), Unsigned(c.tmMin, 0x100),
          Unsigned(c.tmSec, 0x100), Unsigned(c.elapsedMs, 0x1_0000))
  }

  /** The ranges `gmtime` produces for years 0..9999, and a millisecond remainder below one second. */
  predicate GmtimeRange(c: Calendar)
  {
    -1900 <= c.tmYear <= 8099 && 0 <= c.tmMon <= 11 && 1 <= c.tmMday <= 31 &&
    0 <= c.tmHour <= 23 && 0 <= c.tmMin <= 59 && 0 <= c.tmSec <= 60 && 0 <= c.elapsedMs <= 999
  }

  /** Every field fits the width its conversion pads to. */
  predicate InRange(st: Stamp)
  {
    st.year <= 9999 && st.month <= 99 && st.day <= 99 && st.hour <= 99 &&
    st.minute <= 99 && st.second <= 99 && st.millisecond <= 999
  }

  function Fields(st: Stamp): (vs: seq<nat>)
    ensures |vs| == |Widths|
  {
    [st.year, st.month, st.day, st.hour, st.minute, st.second, st.millisecond]
  }

  /** Chronological order of stamps: lexicographic order of their field tuples. */
  predicate Before(a: Stamp, b: Stamp)
  {
    FieldsBefore(Fields(a), Fields(b))
  }

  predicate FieldsBefore(vs: seq<nat>, us: seq<nat>)
    requires |vs| == |us|
  {
    |vs| > 0 && (vs[0] < us[0] || (vs[0] == us[0] && FieldsBefore(vs[1..], us[1..])))
  }

  /** Byte-wise lexicographic order of strings, as `strcmp(s, t) < 0`. */
  predicate LexLess(s: string, t: string)
  {
    if |s| == 0 then |t| > 0
    else |t| > 0 && (s[0] < t[0] || (s[0] == t[0] && LexLess(s[1..], t[1..])))
  }

  // ----- decimal digits -----

  function Pow10(n: nat): (r: nat)
    ensures r > 0
  {
    if n == 0 then 1 else 10 * Pow10(n - 1)
  }

  predicate IsDigit(c: char)
  {
    '0' <= c <= '9'
  }

  predicate AllDigits(s: string)
  {
    forall i | 0 <= i < |s| :: IsDigit(s[i])
  }

  function DigitChar(d: nat): (c: char)
    requires d < 10
    ensures IsDigit(c) && c as int - '0' as int == d
  {
    ('0' as int + d) as char
  }

  /** The last `width` decimal digits of `n`, most significant first. */
  function FixedDigits(n: nat, width: nat): (r: string)
    ensures |r| == width && AllDigits(r)
  {
    if width == 0 then [] else FixedDigits(n / 10, width - 1) + [DigitChar(n % 10)]
  }

  /** The number a string of decimal digits denotes. */
  function DigitsValue(s: string): (v: nat)
    requires AllDigits(s)
    ensures v < Pow10(|s|)
  {
    if s == [] then 0 else DigitsValue(s[..|s| - 1]) * 10 + (s[|s| - 1] as int - '0' as int)
  }

  /** How many digits `%d` prints for a non-negative `n`. */
  function NumDigits(n: nat): (k: nat)
    ensures 1 <= k && n < Pow10(k)
    ensures k > 1 ==> Pow10(k - 1) <= n
  {
    if n < 10 then 1 else 1 + NumDigits(n / 10)
  }

  /** `%0<width>d` of a non-negative `n`: its digits, padded with zeros on the left to `width`. */
  function ZeroPadded(n: nat, width: nat): (r: string)
    ensures |r| == (if NumDigits(n) < width then width else NumDigits(n))
    ensures AllDigits(r) && DigitsValue(r) == n
  {
    var k := if NumDigits(n) < width then width else NumDigits(n);
    Pow10Monotone(NumDigits(n), k);
    FixedDigitsValue(n, k);
    FixedDigits(n, k)
  }

  /** The fields formatted with their widths and joined by `_`. */
  function Join(vs: seq<nat>, ws: seq<nat>): string
    requires |vs| == |ws| >= 1
  {
    if |vs| == 1 then ZeroPadded(vs[0], ws[0])
    else ZeroPadded(vs[0], ws[0]) + ("_" + Join(vs[1..], ws[1..]))
  }

  /** Line 38: the name `getFilenameStr` writes for a stamp. */
  function FileName(st: Stamp): (name: string)
    ensures |name| < FilenameCapacity
  {
    JoinBound(Fields(st), Widths);
    Join(Fields(st), Widths) + ".iq"
  }

  /** The fields of a `_`-joined sequence of digit groups of the given widths, if it is one. */
  function ParseFields(s: string, ws: seq<nat>): (r: Option<seq<nat>>)
    requires |ws| >= 1 && forall i | 0 <= i < |ws| :: ws[i] > 0
    ensures r.Some? ==> |r.value| == |ws|
  {
    var w := ws[0];
    if |s| < w || !AllDigits(s[..w]) then None
    else if |ws| == 1 then (if |s| == w then Some([DigitsValue(s)]) else None)
    else if |s| == w || s[w] != '_' then None
    else match ParseFields(s[w + 1..], ws[1..])
      case None => None
      case Some(rest) => Some([DigitsValue(s[..w])] + rest)
  }

  /** Reads the stamp back from a file name; `None` for any other string. */
  function ParseFileName(name: string): Option<Stamp>
  {
    if |name| < 3 || name[|name| - 3..] != ".iq" then None
    else match ParseFields(name[..|name| - 3], Widths)
      case None => None
      case Some(vs) =>
        ParseFieldsFit(name[..|name| - 3], Widths);
        assert forall i | 0 <= i < 7 :: vs[i] < Pow10(Widths[i]) <= 10000;
        Some(Stamp(vs[0], vs[1], vs[2], vs[3], vs[4], vs[5], vs[6]))
  }

  predicate Fits(vs: seq<nat>, ws: seq<nat>)
    requires |vs| == |ws|
  {
    forall i | 0 <= i < |vs| :: 0 < ws[i] && vs[i] < Pow10(ws[i])
  }

  // ----- lemmas about digits -----

  lemma {:induction false} Pow10Monotone(i: nat, j: nat)
    requires i <= j
    ensures Pow10(i) <= Pow10(j)
  {
    if i < j {
      Pow10Monotone(i, j - 1);
    }
  }

  /** Within its width, a number's fixed digits read back as the number. */
  lemma {:induction false} FixedDigitsValue(n: nat, width: nat)
    requires n < Pow10(width)
    ensures DigitsValue(FixedDigits(n, width)) == n
  {
    if width > 0 {
      var r := FixedDigits(n, width);
      assert r[..|r| - 1] == FixedDigits(n / 10, width - 1);
      FixedDigitsValue(n / 10, width - 1);
    }
  }

  /** A digit string is the fixed digits of its own value. */
  lemma {:induction false} DigitsOfValue(s: string)
    requires AllDigits(s)
    ensures FixedDigits(DigitsValue(s), |s|) == s
  {
    if s != [] {
      var p := s[..|s| - 1];
      var v := DigitsValue(s);
      assert v / 10 == DigitsValue(p) && v % 10 == s[|s| - 1] as int - '0' as int;
      DigitsOfValue(p);
      assert s == p + [s[|s| - 1]];
    }
  }

  /** Zero padding to a width the number fits is exactly its fixed digits. */
  lemma ZeroPaddedFits(n: nat, width: nat)
    requires 0 < width && n < Pow10(width)
    ensures ZeroPadded(n, width) == FixedDigits(n, width)
  {
    if width < NumDigits(n) {
      Pow10Monotone(width, NumDigits(n) - 1);
    }
  }

  /** Two strings of equal length: the concatenation splits at the same point. */
  lemma AppendSplit(x1: string, y1: string, x2: string, y2: string)
    requires |x1| == |x2|
    ensures x1 + y1 == x2 + y2 <==> x1 == x2 && y1 == y2
  {
    if x1 + y1 == x2 + y2 {
      assert x1 == (x1 + y1)[..|x1|] && x2 == (x2 + y2)[..|x2|];
      assert y1 == (x1 + y1)[|x1|..] && y2 == (x2 + y2)[|x2|..];
    }
  }

  /** Lexicographic order of concatenations whose first parts have equal length. */
  lemma {:induction false} LexLessAppend(x1: string, y1: string, x2: string, y2: string)
    requires |x1| == |x2|
    ensures LexLess(x1 + y1, x2 + y2) <==> LexLess(x1, x2) || (x1 == x2 && LexLess(y1, y2))
  {
    if |x1| == 0 {
      assert x1 + y1 == y1 && x2 + y2 == y2;
    } else {
      assert (x1 + y1)[1..] == x1[1..] + y1 && (x2 + y2)[1..] == x2[1..] + y2;
      LexLessAppend(x1[1..], y1, x2[1..], y2);
      assert x1 == x2 <==> x1[0] == x2[0] && x1[1..] == x2[1..] by {
        if x1[0] == x2[0] && x1[1..] == x2[1..] {
          assert x1 == [x1[0]] + x1[1..] && x2 == [x2[0]] + x2[1..];
        }
      }
    }
  }

  /** Fixed digits of the same width order as the numbers they denote. */
  lemma {:induction false} FixedDigitsOrder(n: nat, m: nat, width: nat)
    requires n < Pow10(width) && m < Pow10(width)
    ensures LexLess(FixedDigits(n, width), FixedDigits(m, width)) <==> n < m
  {
    if width == 0 {
    } else {
      var hn, hm := FixedDigits(n / 10, width - 1), FixedDigits(m / 10, width - 1);
      var dn, dm := DigitChar(n % 10), DigitChar(m % 10);
      LexLessAppend(hn, [dn], hm, [dm]);
      FixedDigitsOrder(n / 10, m / 10, width - 1);
      FixedDigitsValue(n / 10, width - 1);
      FixedDigitsValue(m / 10, width - 1);
      assert hn == hm <==> n / 10 == m / 10;
      assert LexLess([dn], [dm]) <==> n % 10 < m % 10;
    }
  }

  // ----- lemmas about the joined name -----

  /** Fields that fit their widths join to `sum of widths + separators` characters. */
  lemma {:induction false} JoinLength(vs: seq<nat>, ws: seq<nat>)
    requires |vs| == |ws| >= 1 && Fits(vs, ws)
    ensures |Join(vs, ws)| == Sum(ws) + |ws| - 1
  {
    ZeroPaddedFits(vs[0], ws[0]);
    if |vs| > 1 {
      JoinLength(vs[1..], ws[1..]);
    }
  }

  function Sum(ws: seq<nat>): nat
  {
    if ws == [] then 0 else ws[0] + Sum(ws[1..])
  }

  /** Whatever the fields, each group has at most five digits, so the name never reaches 80 bytes. */
  lemma {:induction false} JoinBound(vs: seq<nat>, ws: seq<nat>)
    requires |vs| == |ws| >= 1
    requires forall i | 0 <= i < |vs| :: vs[i] < 0x1_0000 && ws[i] <= 5
    ensures |Join(vs, ws)| <= 6 * |vs| - 1
  {
    if NumDigits(vs[0]) > 5 {
      Pow10Monotone(5, NumDigits(vs[0]) - 1);
    }
    if |vs| > 1 {
      JoinBound(vs[1..], ws[1..]);
    }
  }

  /** Zero-padded numbers of one width order as the numbers do, and are equal exactly when they are. */
  lemma PaddedOrder(v: nat, u: nat, w: nat)
    requires 0 < w && v < Pow10(w) && u < Pow10(w)
    ensures |ZeroPadded(v, w)| == w && |ZeroPadded(u, w)| == w
    ensures LexLess(ZeroPadded(v, w), ZeroPadded(u, w)) <==> v < u
    ensures ZeroPadded(v, w) == ZeroPadded(u, w) <==> v == u
  {
    ZeroPaddedFits(v, w);
    ZeroPaddedFits(u, w);
    FixedDigitsOrder(v, u, w);
  }

  /** Order and equality of `p + "_" + t` when the heads have equal length. */
  lemma SeparatedOrder(pv: string, tv: string, pu: string, tu: string)
    requires |pv| == |pu|
    ensures LexLess(pv + ("_" + tv), pu + ("_" + tu)) <==> LexLess(pv, pu) || (pv == pu && LexLess(tv, tu))
    ensures pv + ("_" + tv) == pu + ("_" + tu) <==> pv == pu && tv == tu
  {
    LexLessAppend(pv, "_" + tv, pu, "_" + tu);
    LexLessAppend("_", tv, "_", tu);
    AppendSplit(pv, "_" + tv, pu, "_" + tu);
    AppendSplit("_", tv, "_", tu);
  }

  lemma HeadTail(vs: seq<nat>, us: seq<nat>)
    requires |vs| == |us| >= 1
    ensures vs == us <==> vs[0] == us[0] && vs[1..] == us[1..]
  {
    if vs[0] == us[0] && vs[1..] == us[1..] {
      assert vs == [vs[0]] + vs[1..] && us == [us[0]] + us[1..];
    }
  }

  /** Joining fields that fit their widths is order-preserving and one-to-one. */
  lemma {:induction false} JoinOrder(vs: seq<nat>, us: seq<nat>, ws: seq<nat>)
    requires |vs| == |us| == |ws| >= 1 && Fits(vs, ws) && Fits(us, ws)
    ensures LexLess(Join(vs, ws), Join(us, ws)) <==> FieldsBefore(vs, us)
    ensures Join(vs, ws) == Join(us, ws) <==> vs == us
  {
    PaddedOrder(vs[0], us[0], ws[0]);
    HeadTail(vs, us);
    if |vs| > 1 {
      JoinOrder(vs[1..], us[1..], ws[1..]);
      SeparatedOrder(ZeroPadded(vs[0], ws[0]), Join(vs[1..], ws[1..]), ZeroPadded(us[0], ws[0]), Join(us[1..], ws[1..]));
    }
  }

  /** A number that fits its width is padded to exactly that width. */
  lemma PaddedWidth(v: nat, w: nat)
    requires 0 < w && v < Pow10(w)
    ensures |ZeroPadded(v, w)| == w
  {
    if w < NumDigits(v) {
      Pow10Monotone(w, NumDigits(v) - 1);
    }
  }

  /** One step of `ParseFields` on a digit group followed by a separator. */
  lemma ParseFieldsStep(p: string, t: string, ws: seq<nat>)
    requires |ws| > 1 && (forall i | 0 <= i < |ws| :: ws[i] > 0) && |p| == ws[0] && AllDigits(p)
    ensures ParseFields(p + ("_" + t), ws) ==
      if ParseFields(t, ws[1..]).None? then None else Some([DigitsValue(p)] + ParseFields(t, ws[1..]).value)
  {
    var s := p + ("_" + t);
    assert s[..ws[0]] == p && s[ws[0]] == '_' && s[ws[0] + 1..] == t;
  }

  /** `ParseFields` on a last digit group. */
  lemma ParseFieldsLast(p: string, ws: seq<nat>)
    requires |ws| == 1 && ws[0] > 0 && |p| == ws[0] && AllDigits(p)
    ensures ParseFields(p, ws) == Some([DigitsValue(p)])
  {
    assert p[..ws[0]] == p;
  }

  /** Parsing a joined name gives back its fields. */
  lemma {:induction false} ParseJoin(vs: seq<nat>, ws: seq<nat>)
    requires |vs| == |ws| >= 1 && Fits(vs, ws)
    ensures ParseFields(Join(vs, ws), ws) == Some(vs)
  {
    var p := ZeroPadded(vs[0], ws[0]);
    PaddedWidth(vs[0], ws[0]);
    if |vs| == 1 {
      assert Join(vs, ws) == p;
      ParseFieldsLast(p, ws);
      assert vs == [vs[0]];
    } else {
      var t := Join(vs[1..], ws[1..]);
      assert Join(vs, ws) == p + ("_" + t);
      ParseJoin(vs[1..], ws[1..]);
      ParseFieldsStep(p, t, ws);
      assert vs == [vs[0]] + vs[1..];
    }
  }

  /** What a successful `ParseFields` has checked of its input. */
  lemma ParseFieldsSome(s: string, ws: seq<nat>)
    requires |ws| >= 1 && (forall i | 0 <= i < |ws| :: ws[i] > 0) && ParseFields(s, ws).Some?
    ensures var vs := ParseFields(s, ws).value;
      ws[0] <= |s| && AllDigits(s[..ws[0]]) && vs[0] == DigitsValue(s[..ws[0]]) &&
      (|ws| == 1 ==> |s| == ws[0]) &&
      (|ws| > 1 ==> ws[0] < |s| && s[ws[0]] == '_' && ParseFields(s[ws[0] + 1..], ws[1..]).Some? &&
                    vs[1..] == ParseFields(s[ws[0] + 1..], ws[1..]).value)
  {
    var w := ws[0];
    assert w <= |s| && AllDigits(s[..w]);
    if |ws| > 1 {
      assert w < |s| && s[w] == '_';
      var rest := ParseFields(s[w + 1..], ws[1..]);
      assert rest.Some?;
      assert ParseFields(s, ws).value == [DigitsValue(s[..w])] + rest.value;
    } else {
      assert |s| == w && ParseFields(s, ws).value == [DigitsValue(s)];
      assert s[..w] == s;
    }
  }

  /** Every parsed field fits its width. */
  lemma {:induction false} ParseFieldsFit(s: string, ws: seq<nat>)
    requires |ws| >= 1 && (forall i | 0 <= i < |ws| :: ws[i] > 0) && ParseFields(s, ws).Some?
    ensures Fits(ParseFields(s, ws).value, ws)
  {
    ParseFieldsSome(s, ws);
    if |ws| > 1 {
      ParseFieldsFit(s[ws[0] + 1..], ws[1..]);
    }
  }

  /** A non-empty digit string is the zero-padded rendering of its value at its own width. */
  lemma PaddedDigits(p: string)
    requires 0 < |p| && AllDigits(p)
    ensures ZeroPadded(DigitsValue(p), |p|) == p
  {
    DigitsOfValue(p);
    ZeroPaddedFits(DigitsValue(p), |p|);
  }

  /** `Join` of two or more fields, unfolded once. */
  lemma JoinUnfold(vs: seq<nat>, ws: seq<nat>)
    requires |vs| == |ws| > 1
    ensures Join(vs, ws) == ZeroPadded(vs[0], ws[0]) + ("_" + Join(vs[1..], ws[1..]))
  {
  }

  /** A string split at a separator is its head, the separator and its tail. */
  lemma SplitAtSeparator(s: string, w: nat)
    requires w < |s| && s[w] == '_'
    ensures s == s[..w] + ("_" + s[w + 1..])
  {
  }

  /** A string that parses is the join of what it parses to. */
  lemma {:induction false} JoinParse(s: string, ws: seq<nat>)
    requires |ws| >= 1 && (forall i | 0 <= i < |ws| :: ws[i] > 0) && ParseFields(s, ws).Some?
    ensures Join(ParseFields(s, ws).value, ws) == s
  {
    var vs, w := ParseFields(s, ws).value, ws[0];
    ParseFieldsSome(s, ws);
    PaddedDigits(s[..w]);
    if |ws| > 1 {
      JoinParse(s[w + 1..], ws[1..]);
      JoinUnfold(vs, ws);
      SplitAtSeparator(s, w);
    } else {
      assert s[..w] == s;
    }
  }

  // ----- the properties of the file name -----

  /** A stamp is in range exactly when each field fits the width of its conversion. */
  lemma InRangeFits(st: Stamp)
    ensures InRange(st) <==> Fits(Fields(st), Widths)
  {
    assert Pow10(2) == 100 && Pow10(3) == 1000 && Pow10(4) == 10000;
    var vs := Fields(st);
    assert Fits(vs, Widths) <==>
      vs[0] < 10000 && vs[1] < 100 && vs[2] < 100 && vs[3] < 100 && vs[4] < 100 && vs[5] < 100 && vs[6] < 1000;
  }

  /**
   * For in-range stamps the name is the seven fields in their full widths,
   * separated by `_` and followed by `.iq`: 26 characters.
   */
  lemma FileNameFormat(st: Stamp)
    requires InRange(st)
    ensures FileName(st) ==
      FixedDigits(st.year, 4) + ("_" + (FixedDigits(st.month, 2) + ("_" + (FixedDigits(st.day, 2) + ("_" +
      (FixedDigits(st.hour, 2) + ("_" + (FixedDigits(st.minute, 2) + ("_" + (FixedDigits(st.second, 2) + ("_" +
      FixedDigits(st.millisecond, 3)))))))))))) + ".iq"
    ensures |FileName(st)| == 26
  {
    assert Pow10(2) == 100 && Pow10(3) == 1000 && Pow10(4) == 10000;
    ZeroPaddedFits(st.year, 4);
    ZeroPaddedFits(st.month, 2);
    ZeroPaddedFits(st.day, 2);
    ZeroPaddedFits(st.hour, 2);
    ZeroPaddedFits(st.minute, 2);
    ZeroPaddedFits(st.second, 2);
    ZeroPaddedFits(st.millisecond, 3);
    var vs := Fields(st);
    JoinUnfold(vs, Widths);
    JoinUnfold(vs[1..], Widths[1..]);
    JoinUnfold(vs[2..], Widths[2..]);
    JoinUnfold(vs[3..], Widths[3..]);
    JoinUnfold(vs[4..], Widths[4..]);
    JoinUnfold(vs[5..], Widths[5..]);
  }

  /** Names of in-range stamps sort exactly as the stamps do, and differ exactly when the stamps do. */
  lemma FileNameOrder(a: Stamp, b: Stamp)
    requires InRange(a) && InRange(b)
    ensures LexLess(FileName(a), FileName(b)) <==> Before(a, b)
    ensures FileName(a) == FileName(b) <==> a == b
  {
    var va, vb := Fields(a), Fields(b);
    InRangeFits(a);
    InRangeFits(b);
    JoinOrder(va, vb, Widths);
    JoinLength(va, Widths);
    JoinLength(vb, Widths);
    LexLessAppend(Join(va, Widths), ".iq", Join(vb, Widths), ".iq");
    AppendSplit(Join(va, Widths), ".iq", Join(vb, Widths), ".iq");
    assert !LexLess(".iq", ".iq");
    assert va == vb ==> a == b;
  }

  /** Parsing is the inverse of naming: in-range stamps read back, and only names of in-range stamps parse. */
  lemma ParseFileNameInverse(st: Stamp, name: string)
    ensures InRange(st) ==> ParseFileName(FileName(st)) == Some(st)
    ensures ParseFileName(name) == Some(st) ==> InRange(st) && FileName(st) == name
  {
    if InRange(st) {
      var vs := Fields(st);
      InRangeFits(st);
      ParseJoin(vs, Widths);
      var n := FileName(st);
      assert n[..|n| - 3] == Join(vs, Widths) && n[|n| - 3..] == ".iq";
    }
    if ParseFileName(name) == Some(st) {
      var body := name[..|name| - 3];
      var vs := ParseFields(body, Widths).value;
      JoinParse(body, Widths);
      ParseFieldsFit(body, Widths);
      assert Fields(st) == vs;
      InRangeFits(st);
      assert name == body + ".iq";
    }
  }
}
