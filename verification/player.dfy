/** The player's display text: the song length as minutes and seconds, and
    the title and artist lines, which are doubled when they overflow their
    box so that they can scroll. */
module Player {
  import opened JamTypes

  // ---------------------------------------------------------------------
  // Decimal digits

  predicate IsDigit(c: char)
  {
    '0' <= c <= '9'
  }

  predicate AllDigits(s: string)
  {
    forall i :: 0 <= i < |s| ==> IsDigit(s[i])
  }

  /** The number a string of decimal digits denotes. */
  function DigitsValue(s: string): nat
    requires AllDigits(s)
  {
    if s == [] then 0
    else DigitsValue(s[..|s| - 1]) * 10 + ((s[|s| - 1] as int) - ('0' as int))
  }

  function DigitChar(d: nat): (c: char)
    requires d < 10
    ensures IsDigit(c) && (c as int) - ('0' as int) == d
  {
    (('0' as int) + d) as char
  }

  /** `{}` of an unsigned number: its decimal digits, no leading zero. */
  function Decimal(n: nat): (r: string)
    ensures |r| >= 1 && AllDigits(r)
    ensures n < 10 ==> |r| == 1
    ensures n < 100 ==> |r| <= 2
    ensures r[0] == '0' ==> r == "0"
    ensures DigitsValue(r) == n
  {
    if n < 10 then [DigitChar(n)]
    else
      var front := Decimal(n / 10);
      var r := front + [DigitChar(n % 10)];
      assert r[..|r| - 1] == front;
      r
  }

  /** The `0` flag with a width: zeros in front up to that width. */
  function ZeroPad(s: string, width: nat): (r: string)
    ensures |r| == if |s| >= width then |s| else width
    ensures r[|r| - |s|..] == s
    ensures forall i :: 0 <= i < |r| - |s| ==> r[i] == '0'
    decreases width - |s|
  {
    if |s| >= width then s
    else
      var r := ZeroPad(['0'] + s, width);
      assert r[|r| - |s|..] == (['0'] + s)[1..];
      r
  }

  /** A padded digit string denotes the same number. */
  lemma {:induction false} ZeroPadValue(s: string, width: nat)
    requires AllDigits(s)
    ensures AllDigits(ZeroPad(s, width))
    ensures DigitsValue(ZeroPad(s, width)) == DigitsValue(s)
    decreases width - |s|
  {
    if |s| < width {
      ZeroPadValue(['0'] + s, width);
      LeadingZero(s);
    }
  }

  lemma {:induction false} LeadingZero(s: string)
    requires AllDigits(s)
    ensures AllDigits(['0'] + s) && DigitsValue(['0'] + s) == DigitsValue(s)
  {
    if s != [] {
      var z := ['0'] + s;
      assert z[..|z| - 1] == ['0'] + s[..|s| - 1];
      LeadingZero(s[..|s| - 1]);
    }
  }

  // ---------------------------------------------------------------------
  // millis_to_min_sec

  lemma MinutesOfMillis(millis: nat)
    ensures (millis / 1000) / 60 == millis / 60000
    ensures millis / 1000 == (millis / 60000) * 60 + (millis / 1000) % 60
  {
    var q := millis / 1000;
    var a := q / 60;
    var b := q % 60;
    assert q == 60 * a + b;
    assert millis == 1000 * q + millis % 1000;
    assert millis == 60000 * a + (1000 * b + millis % 1000);
    assert 0 <= 1000 * b + millis % 1000 < 60000;
  }

  /** millis_to_min_sec: whole minutes in decimal, ':', then the remaining
      whole seconds as exactly two digits; milliseconds are dropped. */
  function MillisToMinSec(millis: U32): (r: string)
    ensures r == MinSecText(millis / 60000, (millis / 1000) % 60)
  {
    var seconds := millis / 1000;
    MinutesOfMillis(millis);
    MinSecText(seconds / 60, seconds % 60)
  }

  /** The text of a duration reads back as its whole minutes and the whole
      seconds left over. */
  lemma MillisRoundTrip(millis: U32)
    ensures ParseMinSec(MillisToMinSec(millis)) == Some((millis / 60000, (millis / 1000) % 60))
  {
    MinSecTextParses(millis / 60000, (millis / 1000) % 60);
  }

  /** `{:01}:{:02}` of whole minutes and the seconds left over; a width of
      one never pads a decimal, which always has at least one digit. */
  function MinSecText(minutes: nat, secs: nat): (r: string)
    requires secs < 60
    ensures |r| >= 4 && r[|r| - 3] == ':'
    ensures AllDigits(r[..|r| - 3]) && (r[0] == '0' ==> |r| == 4)
    ensures DigitsValue(r[..|r| - 3]) == minutes
    ensures AllDigits(r[|r| - 2..]) && DigitsValue(r[|r| - 2..]) == secs
  {
    var m := Decimal(minutes);
    var d := Decimal(secs);
    var s := ZeroPad(d, 2);
    ZeroPadValue(d, 2);
    assert AllDigits(s) && DigitsValue(s) == secs && |s| == 2;
    assert AllDigits(m) && DigitsValue(m) == minutes && (m[0] == '0' ==> |m| == 1);
    ColonSplit(m, s);
    m + ":" + s
  }

  /** Reading the text back gives the minutes and seconds it was made of. */
  lemma MinSecTextParses(minutes: nat, secs: nat)
    requires secs < 60
    ensures ParseMinSec(MinSecText(minutes, secs)) == Some((minutes, secs))
  {
    var d := Decimal(secs);
    ZeroPadValue(d, 2);
    ParseShaped(Decimal(minutes), ZeroPad(d, 2));
  }

  lemma ColonSplit(m: string, s: string)
    requires |m| >= 1 && |s| == 2
    ensures var r := m + ":" + s;
            |r| == |m| + 3 && r[|r| - 3] == ':' && r[0] == m[0] &&
            r[..|r| - 3] == m && r[|r| - 2..] == s
  {
    var r := m + ":" + s;
    assert r[..|r| - 3] == m;
    assert r[|r| - 2..] == s;
  }

  /** The index of the first `c` in `s`, or `|s|`. */
  function CharIndex(s: string, c: char): (k: nat)
    ensures k <= |s|
    ensures k < |s| ==> s[k] == c
    ensures forall i :: 0 <= i < k ==> s[i] != c
  {
    if s == [] then 0
    else if s[0] == c then 0
    else 1 + CharIndex(s[1..], c)
  }

  /** Reads "m:ss" back into minutes and seconds. */
  function ParseMinSec(s: string): Option<(nat, nat)>
  {
    var k := CharIndex(s, ':');
    if 0 < k && k + 3 == |s| && AllDigits(s[..k]) && AllDigits(s[k + 1..]) then
      Some((DigitsValue(s[..k]), DigitsValue(s[k + 1..])))
    else None
  }

  /** Minutes digits, ':', two seconds digits parse back into the values of
      the two fields. */
  lemma ParseShaped(m: string, s: string)
    requires |m| >= 1 && AllDigits(m) && |s| == 2 && AllDigits(s)
    ensures ParseMinSec(m + ":" + s) == Some((DigitsValue(m), DigitsValue(s)))
  {
    var r := m + ":" + s;
    var k := CharIndex(r, ':');
    forall i | 0 <= i < |m|
      ensures r[i] != ':'
    {
      assert r[i] == m[i] && IsDigit(m[i]);
    }
    assert r[|m|] == ':';
    assert k == |m|;
    assert r[..k] == m;
    assert r[k + 1..] == s;
  }

  /** Two inputs show the same text exactly when they have the same whole
      seconds: sub-second milliseconds are dropped and nothing else is. */
  lemma SameTextIffSameSecond(a: U32, b: U32)
    ensures MillisToMinSec(a) == MillisToMinSec(b) <==> a / 1000 == b / 1000
  {
    FieldsIffSameSecond(a, b);
    if MillisToMinSec(a) == MillisToMinSec(b) {
      MillisRoundTrip(a);
      MillisRoundTrip(b);
    }
  }

  /** Whole minutes and leftover seconds together determine whole seconds. */
  lemma FieldsIffSameSecond(a: nat, b: nat)
    ensures a / 60000 == b / 60000 && (a / 1000) % 60 == (b / 1000) % 60 <==> a / 1000 == b / 1000
  {
    MinutesOfMillis(a);
    MinutesOfMillis(b);
  }

  // ---------------------------------------------------------------------
  // The Player component's text

  /** song_length: the current song's duration, 0 with no song. */
  function SongLength(current: Option<Song>): (r: U32)
    ensures current.None? ==> r == 0
    ensures current.Some? ==> r == current.value.duration
  {
    match current
    case Some(song) => song.duration
    case None => 0
  }

  /** The length shown under the progress bar. */
  function LengthText(current: Option<Song>): string
  {
    MillisToMinSec(SongLength(current))
  }

  /** With no song playing the length reads "0:00". */
  lemma NoSongShowsZero()
    ensures LengthText(None) == "0:00"
  {
    assert SongLength(None) == 0;
    ZeroText(MillisToMinSec(0));
  }

  /** The only text with both fields denoting zero is "0:00". */
  lemma ZeroText(r: string)
    requires |r| >= 4 && r[|r| - 3] == ':'
    requires AllDigits(r[..|r| - 3]) && (r[0] == '0' ==> |r| == 4)
    requires DigitsValue(r[..|r| - 3]) == 0
    requires AllDigits(r[|r| - 2..]) && DigitsValue(r[|r| - 2..]) == 0
    ensures r == "0:00"
  {
    var m := r[..|r| - 3];
    var s := r[|r| - 2..];
    ZeroValueIsZeros(m);
    ZeroValueIsZeros(s);
    assert r[0] == m[0] == '0';
    assert r[2] == s[0] && r[3] == s[1];
  }

  /** Digits that denote zero are all '0'. */
  lemma {:induction false} ZeroValueIsZeros(s: string)
    requires AllDigits(s) && DigitsValue(s) == 0
    ensures forall i :: 0 <= i < |s| ==> s[i] == '0'
  {
    if s != [] {
      var front := s[..|s| - 1];
      ZeroValueIsZeros(front);
      forall i | 0 <= i < |s| - 1
        ensures s[i] == '0'
      {
        assert s[i] == front[i];
      }
    }
  }

  /** `str::repeat`. */
  function Repeat(s: string, n: nat): (r: string)
    ensures |r| == n * |s|
    ensures |s| > 0 ==> forall i :: 0 <= i < |r| ==> r[i] == s[i % |s|]
  {
    if n == 0 then []
    else
      var rest := Repeat(s, n - 1);
      assert (n - 1) * |s| + |s| == n * |s|;
      OneMoreCopy(s, rest);
      s + rest
  }

  /** Putting one more copy of `s` in front keeps the text periodic. */
  lemma OneMoreCopy(s: string, rest: string)
    requires |s| > 0 ==> forall i :: 0 <= i < |rest| ==> rest[i] == s[i % |s|]
    ensures |s| > 0 ==> forall i :: 0 <= i < |s + rest| ==> (s + rest)[i] == s[i % |s|]
  {
    if |s| > 0 {
      var r := s + rest;
      forall i | 0 <= i < |r| ensures r[i] == s[i % |s|] {
        if i < |s| {
          DivModUnique(i, |s|, 0, i);
        } else {
          assert r[i] == rest[i - |s|];
          ModShift(i, |s|);
        }
      }
    }
  }

  lemma ModShift(i: int, m: int)
    requires 0 < m <= i
    ensures (i - m) % m == i % m
  {
    var q, r := (i - m) / m, (i - m) % m;
    assert i - m == q * m + r && 0 <= r < m;
    assert i == (q + 1) * m + r;
    assert i / m == q + 1 && i % m == r by {
      DivModUnique(i, m, q + 1, r);
    }
  }

  /** A quotient and remainder pair is the only one. */
  lemma DivModUnique(a: int, m: int, q: int, r: int)
    requires 0 < m && 0 <= r < m && a == q * m + r
    ensures a / m == q && a % m == r
  {
    var q', r' := a / m, a % m;
    assert a == q' * m + r' && 0 <= r' < m;
    assert (q - q') * m == r' - r;
    if q > q' {
      MulAtLeast(q - q', m);
    } else if q < q' {
      MulAtLeast(q' - q, m);
    }
  }

  lemma {:induction false} MulAtLeast(d: int, m: int)
    requires d >= 1 && m > 0
    ensures d * m >= m
  {
    if d > 1 {
      MulAtLeast(d - 1, m);
      assert d * m == (d - 1) * m + m;
    }
  }

  /** `join`. */
  function Join(parts: seq<string>, sep: string): string
  {
    if |parts| == 0 then []
    else if |parts| == 1 then parts[0]
    else parts[0] + sep + Join(parts[1..], sep)
  }

  /** How many copies of a line are shown: two when it overflows. */
  function Copies(overflowing: bool): nat
  {
    if overflowing then 2 else 1
  }

  /** The title line. */
  function TitleText(current: Option<Song>, overflowing: bool): (r: string)
    ensures var name := if current.Some? then current.value.name else "";
            r == if overflowing then name + name else name
  {
    var name := match current
      case Some(song) => song.name
      case None => "";
    assert Repeat(name, 1) == name + [];
    Repeat(name, Copies(overflowing))
  }

  /** The artist line: the artist names joined by ", ". */
  function ArtistText(current: Option<Song>, overflowing: bool): (r: string)
    ensures var line := if current.Some? then Join(current.value.artists, ", ") else "";
            r == if overflowing then line + line else line
  {
    var line := match current
      case Some(song) => Join(song.artists, ", ")
      case None => "";
    assert Repeat(line, 1) == line + [];
    Repeat(line, Copies(overflowing))
  }

  /** Splits an artist line at each ", ". */
  function SplitArtists(s: string): seq<string>
    decreases |s|
  {
    var k := CharIndex(s, ',');
    if k + 2 <= |s| then [s[..k]] + SplitArtists(s[k + 2..]) else [s]
  }

  /** Joining loses nothing while no artist name holds a comma. */
  lemma {:induction false} SplitJoin(parts: seq<string>)
    requires |parts| >= 1
    requires forall i :: 0 <= i < |parts| ==> ',' !in parts[i]
    ensures SplitArtists(Join(parts, ", ")) == parts
  {
    if |parts| > 1 {
      var rest := Join(parts[1..], ", ");
      var s := parts[0] + ", " + rest;
      var k := CharIndex(s, ',');
      assert forall i :: 0 <= i < |parts[0]| ==> s[i] == parts[0][i];
      assert s[|parts[0]|] == ',';
      assert k == |parts[0]|;
      assert s[..k] == parts[0];
      assert s[k + 2..] == rest;
      SplitJoin(parts[1..]);
      assert parts == [parts[0]] + parts[1..];
    }
  }
}
