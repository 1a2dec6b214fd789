/**
  The streaming base64 encoder of the core dump writer, against base64 as section 4 of RFC 4648 defines
  it, and the line length of section 6.8 of RFC 2045.
 */
module Base64 {
  import opened Multiples

  newtype byte = x: int | 0 <= x < 256

  /** Input bytes on a full line. */
  const LINE_IN: nat := 57

  /** The alphabet: capitals, small letters, digits, plus and slash, indexed by the low six bits. */
  function Enc(v: nat): char {
    var k := v % 64;
    if k < 26 then 'A' + k as char
    else if k < 52 then 'a' + (k - 26) as char
    else if k < 62 then '0' + (k - 52) as char
    else if k == 62 then '+'
    else '/'
  }

  // ----- the definition

  /** Three bytes as four characters. */
  function Group(b0: byte, b1: byte, b2: byte): (s: string)
    ensures |s| == 4
  {
    var (x, y, z) := (b0 as int, b1 as int, b2 as int);
    [Enc(x / 4), Enc(x % 4 * 16 + y / 16), Enc(y % 16 * 4 + z / 64), Enc(z)]
  }

  /** One or two bytes at the end, padded. */
  function Tail(s: seq<byte>): (r: string)
    requires |s| < 3
    ensures |r| == if s == [] then 0 else 4
  {
    if |s| == 0 then ""
    else if |s| == 1 then
      var x := s[0] as int;
      [Enc(x / 4), Enc(x % 4 * 16), '=', '=']
    else
      var (x, y) := (s[0] as int, s[1] as int);
      [Enc(x / 4), Enc(x % 4 * 16 + y / 16), Enc(y % 16 * 4), '=']
  }

  /** Section 4 of RFC 4648. */
  function Encode(d: seq<byte>): string {
    if |d| < 3 then Tail(d) else Group(d[0], d[1], d[2]) + Encode(d[3..])
  }

  // ----- the definition in the words of the standard

  /** Table 1 of RFC 4648: the capitals, the small letters and the digits in order, plus and slash. */
  lemma AlphabetIs(k: nat)
    ensures Enc(0) == 'A' && Enc(26) == 'a' && Enc(52) == '0' && Enc(62) == '+' && Enc(63) == '/'
    ensures k < 25 || 26 <= k < 51 || 52 <= k < 61 ==> Enc(k + 1) as int == Enc(k) as int + 1
    ensures Enc(k + 64) == Enc(k)
  {}

  lemma Digits(x: nat, y: nat, z: nat)
    requires x < 256 && y < 256 && z < 256
    ensures var (d0, d1, d2, d3) := (x / 4, x % 4 * 16 + y / 16, y % 16 * 4 + z / 64, z % 64);
            ((d0 * 64 + d1) * 64 + d2) * 64 + d3 == (x * 256 + y) * 256 + z
  {
    var (x0, x1) := (x / 4, x % 4);
    var (y0, y1) := (y / 16, y % 16);
    var (z0, z1) := (z / 64, z % 64);
    assert x == 4 * x0 + x1 && y == 16 * y0 + y1 && z == 64 * z0 + z1;
  }

  /** Three bytes are a 24-bit number, most significant first, and so are four digits of six bits. */
  lemma GroupIsNumber(x: byte, y: byte, z: byte) returns (d0: nat, d1: nat, d2: nat, d3: nat)
    ensures d0 < 64 && d1 < 64 && d2 < 64 && d3 < 64
    ensures ((d0 * 64 + d1) * 64 + d2) * 64 + d3 == (x as int * 256 + y as int) * 256 + z as int
    ensures Group(x, y, z) == [Enc(d0), Enc(d1), Enc(d2), Enc(d3)]
  {
    var (p, q, r) := (x as int, y as int, z as int);
    Ranges(p, q, r);
    Digits(p, q, r);
    d0, d1, d2, d3 := p / 4, p % 4 * 16 + q / 16, q % 16 * 4 + r / 64, r % 64;
    LowBits(r);
  }

  lemma LowBits(v: nat)
    ensures Enc(v) == Enc(v % 64)
  {}

  // ----- decoding

  function Dec(c: char): nat {
    if 'A' <= c <= 'Z' then c as int - 'A' as int
    else if 'a' <= c <= 'z' then c as int - 'a' as int + 26
    else if '0' <= c <= '9' then c as int - '0' as int + 52
    else if c == '+' then 62
    else 63
  }

  lemma DecEnc(v: nat)
    ensures Dec(Enc(v)) == v % 64 && Enc(v) != '=' && Enc(v) != '\n'
  {
  }

  function First(a: nat, b: nat): byte {
    ((a * 4 + b / 16) % 256) as byte
  }

  function Second(b: nat, c: nat): byte {
    ((b % 16 * 16 + c / 4) % 256) as byte
  }

  function Third(c: nat, d: nat): byte {
    ((c % 4 * 64 + d) % 256) as byte
  }

  /** Four characters back to three bytes, fewer if padded. */
  function Decode(s: string): seq<byte> {
    if |s| < 4 then []
    else
      var (a, b, c, d) := (Dec(s[0]), Dec(s[1]), Dec(s[2]), Dec(s[3]));
      if s[2] == '=' then [First(a, b)]
      else if s[3] == '=' then [First(a, b), Second(b, c)]
      else [First(a, b), Second(b, c), Third(c, d)] + Decode(s[4..])
  }

  lemma JoinFirst(a: nat, b: nat, c: nat)
    requires a < 64 && b < 4 && c < 16
    ensures First(a, b * 16 + c) as int == a * 4 + b
  {
    RemainderOfMultiple(b, 16, c);
    RemainderOfMultiple(0, 256, a * 4 + b);
  }

  lemma JoinSecond(b: nat, c: nat, d: nat, e: nat)
    requires c < 16 && d < 16 && e < 4
    ensures Second(b * 16 + c, d * 4 + e) as int == c * 16 + d
  {
    RemainderOfMultiple(b, 16, c);
    RemainderOfMultiple(d, 4, e);
    RemainderOfMultiple(0, 256, c * 16 + d);
  }

  lemma JoinThird(d: nat, e: nat, f: nat)
    requires e < 4 && f < 64
    ensures Third(d * 4 + e, f) as int == e * 64 + f
  {
    RemainderOfMultiple(d, 4, e);
    RemainderOfMultiple(0, 256, e * 64 + f);
  }

  /** The bits of three bytes, cut in sixes and joined again. */
  lemma Joined(x: byte, y: byte, z: byte)
    ensures First(x as int / 4, x as int % 4 * 16 + y as int / 16) == x
    ensures Second(x as int % 4 * 16 + y as int / 16, y as int % 16 * 4 + z as int / 64) == y
    ensures Third(y as int % 16 * 4 + z as int / 64, z as int % 64) == z
  {
    var (p, q, r) := (x as int, y as int, z as int);
    JoinFirst(p / 4, p % 4, q / 16);
    JoinSecond(p % 4, q / 16, q % 16, r / 64);
    JoinThird(q % 16, r / 64, r % 64);
  }

  lemma SixBits(v: nat)
    requires v < 64
    ensures Dec(Enc(v)) == v && Enc(v) != '=' && Enc(v) != '\n'
  {
    DecEnc(v);
  }

  lemma Ranges(x: int, y: int, z: int)
    requires 0 <= x < 256 && 0 <= y < 256 && 0 <= z < 256
    ensures 0 <= x / 4 < 64 && 0 <= x % 4 * 16 + y / 16 < 64 && 0 <= y % 16 * 4 + z / 64 < 64
  {}

  /** The characters of a group, decoded one by one. */
  lemma Sixes(b0: byte, b1: byte, b2: byte)
    ensures var (g, x, y, z) := (Group(b0, b1, b2), b0 as int, b1 as int, b2 as int);
            && Dec(g[0]) == x / 4 && Dec(g[1]) == x % 4 * 16 + y / 16
            && Dec(g[2]) == y % 16 * 4 + z / 64 && Dec(g[3]) == z % 64
    ensures '=' !in Group(b0, b1, b2) && '\n' !in Group(b0, b1, b2)
  {
    var (x, y, z) := (b0 as int, b1 as int, b2 as int);
    Ranges(x, y, z);
    SixBits(x / 4);
    SixBits(x % 4 * 16 + y / 16);
    SixBits(y % 16 * 4 + z / 64);
    DecEnc(z);
  }

  lemma GroupBytes(x: byte, y: byte, z: byte)
    ensures var g := Group(x, y, z);
            && First(Dec(g[0]), Dec(g[1])) == x && Second(Dec(g[1]), Dec(g[2])) == y
            && Third(Dec(g[2]), Dec(g[3])) == z && g[2] != '=' && g[3] != '='
  {
    var g := Group(x, y, z);
    Sixes(x, y, z);
    Joined(x, y, z);
    assert g[2] in g && g[3] in g;
  }

  lemma {:induction false} DecodeGroup(b0: byte, b1: byte, b2: byte, rest: string)
    ensures Decode(Group(b0, b1, b2) + rest) == [b0, b1, b2] + Decode(rest)
  {
    GroupBytes(b0, b1, b2);
    assert (Group(b0, b1, b2) + rest)[4..] == rest;
  }

  /** A padded group is cut from the group with zero bytes in place of the missing ones. */
  lemma TailIsGroup(s: seq<byte>)
    requires 0 < |s| < 3
    ensures var g := Group(s[0], if |s| > 1 then s[1] else 0, 0);
            Tail(s) == if |s| == 1 then [g[0], g[1], '=', '='] else [g[0], g[1], g[2], '=']
  {}

  /** Decoding a group whose last characters are replaced by padding. */
  lemma {:induction false} DecodeCut(g: string, s: seq<byte>)
    requires |g| == 4 && g[2] != '=' && 0 < |s| < 3 && First(Dec(g[0]), Dec(g[1])) == s[0]
    requires |s| == 2 ==> Second(Dec(g[1]), Dec(g[2])) == s[1]
    ensures Decode(if |s| == 1 then [g[0], g[1], '=', '='] else [g[0], g[1], g[2], '=']) == s
  {}

  lemma TailClean(s: seq<byte>)
    requires |s| < 3
    ensures '\n' !in Tail(s)
  {
    if s != [] {
      var g := Group(s[0], if |s| > 1 then s[1] else 0, 0);
      TailIsGroup(s);
      Sixes(s[0], if |s| > 1 then s[1] else 0, 0);
      assert g[0] in g && g[1] in g && g[2] in g;
    }
  }

  lemma {:induction false} DecodeTail(s: seq<byte>)
    requires |s| < 3
    ensures Decode(Tail(s)) == s
  {
    if s != [] {
      var y := if |s| > 1 then s[1] else 0;
      GroupBytes(s[0], y, 0);
      TailIsGroup(s);
      DecodeCut(Group(s[0], y, 0), s);
    }
  }

  /** Decoding recovers the input. */
  lemma {:induction false} RoundTrip(d: seq<byte>)
    ensures Decode(Encode(d)) == d
  {
    if |d| < 3 {
      DecodeTail(d);
    } else {
      DecodeGroup(d[0], d[1], d[2], Encode(d[3..]));
      RoundTrip(d[3..]);
    }
  }

  // ----- with line breaks

  /** The line break after `n` bytes, if there is one. */
  function Break(n: nat): string {
    if n % LINE_IN == 0 then "\n" else ""
  }

  /** Whole groups, with a line break after every 57 bytes. */
  function Lines(d: seq<byte>): string
    requires |d| % 3 == 0
  {
    if d == [] then ""
    else
      var n := |d|;
      Lines(d[..n - 3]) + Group(d[n - 3], d[n - 2], d[n - 1]) + Break(n)
  }

  /** The number of bytes in whole groups. */
  function Whole(d: seq<byte>): nat {
    |d| - |d| % 3
  }

  /** What writing `d` in any chunks and flushing puts out. */
  function Final(d: seq<byte>): string {
    var k := Whole(d);
    Lines(d[..k]) + Tail(d[k..]) + if k % LINE_IN != 0 then "\n" else ""
  }

  function Strip(s: string): string {
    if s == "" then "" else (if s[0] == '\n' then "" else [s[0]]) + Strip(s[1..])
  }

  lemma {:induction false} StripAppend(s: string, t: string)
    ensures Strip(s + t) == Strip(s) + Strip(t)
  {
    if s == "" {
      assert s + t == t;
    } else {
      assert (s + t)[1..] == s[1..] + t;
      StripAppend(s[1..], t);
    }
  }

  lemma {:induction false} StripClean(s: string)
    requires '\n' !in s
    ensures Strip(s) == s
  {
    if s != "" { StripClean(s[1..]); }
  }

  lemma {:induction false} StripThree(s: string, clean: string, ending: string)
    requires '\n' !in clean && (ending == "" || ending == "\n")
    ensures Strip(s + clean + ending) == Strip(s) + clean
  {
    StripAppend(s, clean);
    StripClean(clean);
    StripAppend(s + clean, ending);
  }

  lemma {:induction false} EncodeAppend(d: seq<byte>, e: seq<byte>)
    requires |d| % 3 == 0
    ensures Encode(d + e) == Encode(d) + Encode(e)
  {
    if d == [] {
      assert d + e == e;
    } else {
      assert (d + e)[3..] == d[3..] + e;
      EncodeAppend(d[3..], e);
    }
  }

  lemma {:induction false} EncodeGroup(d: seq<byte>)
    requires |d| % 3 == 0 && d != []
    ensures var n := |d|;
            Encode(d) == Encode(d[..n - 3]) + Group(d[n - 3], d[n - 2], d[n - 1])
  {
    var n := |d|;
    var last := d[n - 3..];
    EncodeAppend(d[..n - 3], last);
    assert d[..n - 3] + last == d;
    assert last[3..] == [];
    assert Encode(last) == Group(last[0], last[1], last[2]) + Encode([]);
  }

  lemma {:induction false} StripLines(d: seq<byte>)
    requires |d| % 3 == 0
    ensures Strip(Lines(d)) == Encode(d)
  {
    if d != [] {
      var n := |d|;
      StripLines(d[..n - 3]);
      EncodeGroup(d);
      Sixes(d[n - 3], d[n - 2], d[n - 1]);
      StripThree(Lines(d[..n - 3]), Group(d[n - 3], d[n - 2], d[n - 1]), Break(n));
    }
  }

  /** The output without line breaks is base64 of the input. */
  lemma {:induction false} StripFinal(d: seq<byte>)
    ensures Strip(Final(d)) == Encode(d)
  {
    var k := Whole(d);
    var (front, tail) := (d[..k], d[k..]);
    StripLines(front);
    TailClean(tail);
    StripThree(Lines(front), Tail(tail), if k % LINE_IN != 0 then "\n" else "");
    EncodeAppend(front, tail);
    assert front + tail == d;
  }

  // ----- line lengths

  /** Characters since the last line break. */
  function Column(s: string): nat {
    if s == "" || s[|s| - 1] == '\n' then 0 else Column(s[..|s| - 1]) + 1
  }

  /** No line is longer than `width`. */
  predicate Fits(s: string, width: nat) {
    s == "" || (Column(s) <= width && Fits(s[..|s| - 1], width))
  }

  lemma {:induction false} AppendClean(s: string, t: string, width: nat)
    requires Fits(s, width) && '\n' !in t && Column(s) + |t| <= width
    ensures Fits(s + t, width) && Column(s + t) == Column(s) + |t|
  {
    if t == "" {
      assert s + t == s;
    } else {
      var (n, all) := (|t| - 1, s + t);
      assert all[..|all| - 1] == s + t[..n] && all[|all| - 1] == t[n] && t[n] in t;
      AppendClean(s, t[..n], width);
      assert Column(all) == Column(s + t[..n]) + 1;
    }
  }

  lemma AppendBreak(s: string, width: nat)
    requires Fits(s, width)
    ensures Fits(s + "\n", width) && Column(s + "\n") == 0
  {
    assert (s + "\n")[..|s + "\n"| - 1] == s;
  }

  lemma {:induction false} FitThree(s: string, clean: string, ending: string, width: nat)
    requires Fits(s, width) && '\n' !in clean && Column(s) + |clean| <= width && (ending == "" || ending == "\n")
    ensures Fits(s + clean + ending, width)
    ensures Column(s + clean + ending) == if ending == "" then Column(s) + |clean| else 0
  {
    AppendClean(s, clean, width);
    if ending == "" {
      assert s + clean + ending == s + clean;
    } else {
      AppendBreak(s + clean, width);
    }
  }

  /** The column after `n` bytes in whole groups. */
  function ColumnAfter(n: nat): nat {
    n % LINE_IN / 3 * 4
  }

  /** `n` is three times `m`, and `m` is `19 * q + r` with a line of 19 groups. */
  lemma ColumnOf(q: nat, r: nat)
    requires r < 19
    ensures ColumnAfter(3 * (19 * q + r)) == 4 * r && ((3 * (19 * q + r)) % LINE_IN == 0 <==> r == 0)
  {
    assert 3 * (19 * q + r) == 57 * q + 3 * r;
  }

  lemma ColumnSteps(n: nat)
    requires n % 3 == 0
    ensures ColumnAfter(n) + 4 <= 76
    ensures ColumnAfter(n + 3) == if (n + 3) % LINE_IN == 0 then 0 else ColumnAfter(n) + 4
  {
    var m := n / 3;
    var (q, r) := (m / 19, m % 19);
    ColumnOf(q, r);
    if r + 1 < 19 {
      ColumnOf(q, r + 1);
    } else {
      ColumnOf(q + 1, 0);
    }
  }

  lemma {:induction false} LinesFit(d: seq<byte>)
    requires |d| % 3 == 0
    ensures Fits(Lines(d), 76) && Column(Lines(d)) == ColumnAfter(|d|)
  {
    if d != [] {
      var n := |d|;
      LinesFit(d[..n - 3]);
      ColumnSteps(n - 3);
      Sixes(d[n - 3], d[n - 2], d[n - 1]);
      FitThree(Lines(d[..n - 3]), Group(d[n - 3], d[n - 2], d[n - 1]), Break(n), 76);
    }
  }

  /** No line has more than 76 characters. */
  lemma {:induction false} FinalFits(d: seq<byte>)
    ensures Fits(Final(d), 76)
  {
    var k := Whole(d);
    LinesFit(d[..k]);
    ColumnSteps(k);
    TailClean(d[k..]);
    FitThree(Lines(d[..k]), Tail(d[k..]), if k % LINE_IN != 0 then "\n" else "", 76);
  }

  // ----- lines are full

  /** The text with a line break after every 76 characters. */
  function Broken(s: string): string {
    if |s| < 76 then s else s[..76] + "\n" + Broken(s[76..])
  }

  lemma {:induction false} BrokenSnoc(s: string, g: string)
    requires |g| == 4 && |s| % 76 <= 72
    ensures Broken(s + g) == Broken(s) + g + if (|s| + 4) % 76 == 0 then "\n" else ""
  {
    if |s| < 76 {
      RemainderOfMultiple(0, 76, |s|);
      if |s| == 72 {
        assert (s + g)[..76] == s + g && (s + g)[76..] == "";
      } else {
        RemainderOfMultiple(0, 76, |s| + 4);
      }
    } else {
      SubtractOnce(|s|, 76);
      SubtractOnce(|s| + 4, 76);
      BrokenSnoc(s[76..], g);
      assert (s + g)[..76] == s[..76] && (s + g)[76..] == s[76..] + g;
    }
  }

  lemma {:induction false} EncodeLength(d: seq<byte>, m: nat)
    requires |d| == 3 * m
    ensures |Encode(d)| == 4 * m
  {
    if m > 0 { EncodeLength(d[3..], m - 1); }
  }

  /** After `m` groups the column in bytes and the column in characters agree. */
  lemma GroupColumns(m: nat)
    ensures (4 * m) % 76 <= 72 && ((4 * m) % 76 == 0 <==> (3 * m) % LINE_IN == 0)
    ensures (4 * m + 4) % 76 == 0 <==> (3 * m) % LINE_IN == 54
  {
    var (q, r) := (m / 19, m % 19);
    assert m == 19 * q + r;
    GroupPlace(q, r);
    if r == 18 { GroupPlace(q + 1, 0); } else { GroupPlace(q, r + 1); }
  }

  lemma GroupPlace(q: nat, r: nat)
    requires r < 19
    ensures (3 * (19 * q + r)) % LINE_IN == 3 * r && (4 * (19 * q + r)) % 76 == 4 * r
  {
    RemainderOfMultiple(q, 57, 3 * r);
    RemainderOfMultiple(q, 76, 4 * r);
    assert 3 * (19 * q + r) == q * 57 + 3 * r && 4 * (19 * q + r) == q * 76 + 4 * r;
  }

  lemma {:induction false} LinesAreFull(d: seq<byte>, m: nat)
    requires |d| % 3 == 0 && |d| == 3 * m
    ensures Lines(d) == Broken(Encode(d))
  {
    if m > 0 {
      var n := |d|;
      var (front, group) := (d[..n - 3], Group(d[n - 3], d[n - 2], d[n - 1]));
      LinesAreFull(front, m - 1);
      assert Lines(d) == Lines(front) + group + Break(n);
      assert Encode(d) == Encode(front) + group by { EncodeGroup(d); }
      assert n == 3 * (m - 1) + 3;
      assert Broken(Encode(front) + group) == Broken(Encode(front)) + group + Break(n) by {
        EncodeLength(front, m - 1);
        FullGroup(Encode(front), m - 1, group);
      }
    }
  }

  lemma FullGroup(s: string, m: nat, g: string)
    requires |s| == 4 * m && |g| == 4
    ensures Broken(s) + g + Break(3 * m + 3) == Broken(s + g)
  {
    GroupColumns(m);
    GroupColumns(m + 1);
    BrokenSnoc(s, g);
  }

  /**
    The output is base64 of the input with a line break after every 76 characters, and one more behind a
    shorter last line, except if that line is a padded group alone.
   */
  lemma {:induction false} FinalIs(d: seq<byte>)
    ensures Final(d) == Broken(Encode(d)) + if |Encode(d)| % 76 != 0 && |d| % LINE_IN != 1 && |d| % LINE_IN != 2
                                            then "\n" else ""
  {
    var (k, m) := (Whole(d), |d| / 3);
    assert k == 3 * m;
    LineEnds(|d|);
    FinalOf(d[..k], m, d[k..]);
    assert d[..k] + d[k..] == d;
  }

  lemma FinalOf(front: seq<byte>, m: nat, tail: seq<byte>)
    requires |front| % 3 == 0 && |front| == 3 * m && |tail| < 3
    ensures var (s, alone) := (Encode(front + tail), (3 * m) % LINE_IN == 0 && tail != []);
            Lines(front) + Tail(tail) + (if (3 * m) % LINE_IN != 0 then "\n" else "") ==
              Broken(s) + if |s| % 76 != 0 && !alone then "\n" else ""
  {
    EncodeAppend(front, tail);
    EncodeLength(front, m);
    LinesAreFull(front, m);
    FinalEnd(Encode(front), m, tail);
  }

  /** The last group and the line break behind it, after `m` whole groups. */
  lemma FinalEnd(s: string, m: nat, tail: seq<byte>)
    requires |s| == 4 * m && |tail| < 3
    ensures var alone := (3 * m) % LINE_IN == 0 && tail != [];
            Broken(s) + Tail(tail) + (if (3 * m) % LINE_IN != 0 then "\n" else "") ==
              Broken(s + Tail(tail)) + if |s + Tail(tail)| % 76 != 0 && !alone then "\n" else ""
  {
    GroupColumns(m);
    if tail == [] {
      assert s + Tail(tail) == s;
    } else {
      BrokenSnoc(s, Tail(tail));
    }
  }

  lemma {:induction false} LinePlace(q: nat, r: nat)
    requires r < 57
    ensures (57 * q + r) % 57 == r && (57 * q + r) % 3 == r % 3
  {
    if q > 0 {
      LinePlace(q - 1, r);
      var x := 57 * (q - 1) + r;
      assert (x + 57) % 57 == x % 57 && (x + 57) % 3 == x % 3;
    }
  }

  lemma LineEnds(n: nat)
    ensures (n - n % 3) % LINE_IN == 0 && n % 3 != 0 <==> n % LINE_IN == 1 || n % LINE_IN == 2
  {
    var (q, r) := (n / 57, n % 57);
    assert n == 57 * q + r;
    LinePlace(q, r);
    LinePlace(q, r - r % 3);
    assert n - n % 3 == 57 * q + (r - r % 3);
  }

  predicate Terminated(s: string) {
    s != "" && s[|s| - 1] == '\n'
  }

  /** The last line is terminated, except if its only group is a padded one. */
  lemma {:induction false} LastLineTerminated(d: seq<byte>)
    requires d != []
    ensures Terminated(Final(d)) <==> |d| % LINE_IN != 1 && |d| % LINE_IN != 2
  {
    var k := Whole(d);
    LineEnds(|d|);
    TailClean(d[k..]);
    var tail := Tail(d[k..]);
    assert tail != "" ==> tail[|tail| - 1] in tail;
  }

  // ----- the encoder

  lemma {:induction false} LinesSnoc(w: seq<byte>, b0: byte, b1: byte, b2: byte)
    requires |w| % 3 == 0
    ensures |w + [b0, b1, b2]| % 3 == 0
    ensures Lines(w + [b0, b1, b2]) == Lines(w) + Group(b0, b1, b2) + Break(|w| + 3)
  {
    assert (w + [b0, b1, b2])[..|w|] == w;
  }

  lemma NextColumn(n: nat)
    requires n % 3 == 0
    ensures var c := n % LINE_IN + 3;
            if c >= LINE_IN then (n + 3) % LINE_IN == 0 && Break(n + 3) == "\n"
            else (n + 3) % LINE_IN == c && Break(n + 3) == ""
  {
    var r := n % LINE_IN;
    assert r % 3 == 0;
  }

  lemma {:induction false} FinalParts(base: string, w: seq<byte>, tail: seq<byte>)
    requires |w| % 3 == 0 && |tail| < 3
    ensures base + Final(w + tail) == base + Lines(w) + Tail(tail) + if |w| % LINE_IN != 0 then "\n" else ""
  {
    var d := w + tail;
    assert |d| % 3 == |tail|;
    assert d[..|w|] == w && d[|w|..] == tail;
  }

  function Zeros(n: nat): (s: seq<byte>)
    ensures |s| == n && forall i :: 0 <= i < n ==> s[i] == 0
  {
    seq(n, _ => 0)
  }

  lemma ZerosJoin(s: seq<byte>, m: nat, n: nat)
    ensures s + Zeros(m) + Zeros(n) == s + Zeros(m + n)
  {}

  lemma NextThree(s: seq<byte>, d: seq<byte>, i: nat, j: nat)
    requires i <= j && j + 2 < |d|
    ensures s + d[i..j] + [d[j], d[j + 1], d[j + 2]] == s + d[i..j + 3]
  {}

  lemma Rejoin(w: seq<byte>, c: seq<byte>, d: seq<byte>, first: seq<byte>, i: nat, j: nat, last: seq<byte>)
    requires i <= j <= |d| && first == c + d[0..i] && last == d[j..|d|]
    ensures w + first + d[i..j] + last == w + c + d
    ensures i == |d| ==> w + first == w + c + d
  {}

  /** `struct B64`; `out` is what has been put out. */
  class Encoder {
    const carry: array<byte>
    var carryN: nat
    var col: nat
    var out: string

    /** What was put out before this stream, and the bytes of this stream that are put out. */
    ghost var base: string
    ghost var whole: seq<byte>

    ghost predicate Stream()
      reads this`col, this`out, this`base, this`whole
    {
      carry.Length == 3 && |whole| % 3 == 0 && col == |whole| % LINE_IN && out == base + Lines(whole)
    }

    ghost predicate Valid()
      reads this
    {
      Stream() && carryN < 3
    }

    /** All bytes written to this stream. */
    ghost function Fed(): seq<byte>
      requires Valid()
      reads this, carry
    {
      whole + carry[..carryN]
    }

    constructor ()
      ensures Valid() && fresh(carry) && Fed() == [] && base == ""
    {
      carry := new byte[3](_ => 0);
      carryN, col, out, base, whole := 0, 0, "", "", [];
    }

    method Emit3(b0: byte, b1: byte, b2: byte)
      requires Stream()
      modifies this`col, this`out, this`whole
      ensures Stream() && whole == old(whole) + [b0, b1, b2]
    {
      LinesSnoc(whole, b0, b1, b2);
      NextColumn(|whole|);
      out := out + Group(b0, b1, b2);
      whole := whole + [b0, b1, b2];
      col := col + 3;
      if col >= LINE_IN {
        out := out + "\n";
        col := 0;
      }
    }

    /** Bytes from `i` on into the carry, as long as there is room. */
    method Stash(data: seq<byte>, i: nat) returns (j: nat)
      requires carry.Length == 3 && carryN <= 3 && i <= |data|
      modifies this`carryN, carry
      ensures i <= j <= |data| && carryN <= 3 && (carryN == 3 || j == |data|)
      ensures carryN == old(carryN) + j - i
      ensures carry[..carryN] == old(carry[..carryN]) + data[i..j]
    {
      j := i;
      while carryN < 3 && j < |data|
        invariant i <= j <= |data| && carryN <= 3 && carryN == old(carryN) + j - i
        invariant carry[..carryN] == old(carry[..carryN]) + data[i..j]
        decreases |data| - j
      {
        carry[carryN] := data[j];
        carryN, j := carryN + 1, j + 1;
      }
    }

    /** Whole groups straight from the input. */
    method Groups(data: seq<byte>, i: nat) returns (j: nat)
      requires Stream() && i <= |data|
      modifies this`col, this`out, this`whole
      ensures Stream() && i <= j <= |data| < j + 3 && whole == old(whole) + data[i..j]
    {
      j := i;
      while j + 2 < |data|
        invariant Stream() && i <= j <= |data| && whole == old(whole) + data[i..j]
      {
        Emit3(data[j], data[j + 1], data[j + 2]);
        NextThree(old(whole), data, i, j);
        j := j + 3;
      }
    }

    method Write(data: seq<byte>)
      requires Valid()
      modifies this`carryN, this`col, this`out, this`whole, carry
      ensures Valid() && Fed() == old(Fed()) + data
    {
      ghost var w, c := whole, carry[..carryN];
      var i := Stash(data, 0);
      ghost var first := carry[..carryN];
      if carryN < 3 {
        Rejoin(w, c, data, first, i, i, []);
        return;
      }
      assert first == [carry[0], carry[1], carry[2]];
      Emit3(carry[0], carry[1], carry[2]);
      carryN := 0;
      var j := Groups(data, i);
      var k := Stash(data, j);
      Rejoin(w, c, data, first, i, j, carry[..carryN]);
    }

    method WriteZeros(n: nat)
      requires Valid()
      modifies this`carryN, this`col, this`out, this`whole, carry
      ensures Valid() && Fed() == old(Fed()) + Zeros(n)
    {
      ghost var fed := Fed();
      ghost var done: nat := 0;
      var left := n;
      while left >= 3
        invariant done + left == n && Valid() && Fed() == fed + Zeros(done)
      {
        Write(Zeros(3));
        ZerosJoin(fed, done, 3);
        left := left - 3;
        done := done + 3;
      }
      ZerosJoin(fed, done, left);
      if left > 0 {
        Write(Zeros(left));
      }
    }

    /** Ends the stream: what it put out depends on its bytes only, however they were cut into writes. */
    method Flush()
      requires Valid()
      modifies this
      ensures Valid() && Fed() == [] && out == base == old(base) + Final(old(Fed()))
    {
      FinalParts(base, whole, carry[..carryN]);
      out := out + Tail(carry[..carryN]);
      carryN := 0;
      if col > 0 {
        out := out + "\n";
      }
      col := 0;
      base, whole := out, [];
    }
  }
}
