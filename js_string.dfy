/** The JavaScript string operations the chat stream parser relies on:
    `trim`, `indexOf`, `split` and the decimal rendering of a number in a
    template literal. Strings are sequences of characters; `startsWith(p)`
    is Dafny's prefix test `p <= s` and needs no definition of its own. */
module JsString {

  /** The code points ECMAScript's `trim` removes: WhiteSpace (tab, vertical
      tab, form feed, space, no-break space, the byte-order mark and the
      other space separators) and LineTerminator (line feed, carriage
      return, line and paragraph separators). */
  predicate IsWhitespace(c: char) {
    || c == '\t' || c == '\n' || c == '\U{000B}' || c == '\U{000C}' || c == '\r'
    || c == ' ' || c == '\U{00A0}' || c == '\U{1680}'
    || ('\U{2000}' <= c <= '\U{200A}')
    || c == '\U{2028}' || c == '\U{2029}' || c == '\U{202F}' || c == '\U{205F}'
    || c == '\U{3000}' || c == '\U{FEFF}'
  }

  predicate AllWhitespace(s: string) {
    forall k :: 0 <= k < |s| ==> IsWhitespace(s[k])
  }

  /** The first position at or after `i` that does not hold whitespace, or
      `|s|` when there is none. */
  function SkipStart(s: string, i: nat): (r: nat)
    requires i <= |s|
    ensures i <= r <= |s|
    ensures forall k :: i <= k < r ==> IsWhitespace(s[k])
    ensures r < |s| ==> !IsWhitespace(s[r])
    decreases |s| - i
  {
    if i < |s| && IsWhitespace(s[i]) then SkipStart(s, i + 1) else i
  }

  /** The position just after the last character before `j` that is not
      whitespace, or 0 when there is none. */
  function SkipEnd(s: string, j: nat): (r: nat)
    requires j <= |s|
    ensures r <= j
    ensures forall k :: r <= k < j ==> IsWhitespace(s[k])
    ensures 0 < r ==> !IsWhitespace(s[r - 1])
  {
    if 0 < j && IsWhitespace(s[j - 1]) then SkipEnd(s, j - 1) else j
  }

  /** `s.trim()`: drops the whitespace at both ends. The result is a slice
      of `s` that neither starts nor ends with whitespace, and is empty
      exactly when `s` is all whitespace. */
  function Trim(s: string): (r: string)
    ensures |r| <= |s|
    ensures exists i, j :: 0 <= i <= j <= |s| && r == s[i..j] && AllWhitespace(s[..i]) && AllWhitespace(s[j..])
    ensures r == [] <==> AllWhitespace(s)
    ensures r == [] || (!IsWhitespace(r[0]) && !IsWhitespace(r[|r| - 1]))
  {
    var i := SkipStart(s, 0);
    if i == |s| then
      assert s[0..0] == [] && s[..0] == [] && s[0..] == s;
      []
    else
      var j := SkipEnd(s, |s|);
      assert i < j;
      assert !AllWhitespace(s) by {
        assert !IsWhitespace(s[i]);
      }
      assert AllWhitespace(s[..i]) && AllWhitespace(s[j..]);
      s[i..j]
  }

  /** Whitespace appended at the end does not change what `trim` returns. */
  lemma TrimIgnoresTrailingWhitespace(s: string, c: char)
    requires IsWhitespace(c)
    ensures Trim(s + [c]) == Trim(s)
  {
    var t := s + [c];
    SkipStartAppend(s, c, 0);
    if SkipStart(s, 0) < |s| {
      assert SkipEnd(t, |t|) == SkipEnd(t, |s|);
      SkipEndAppend(s, c, |s|);
      assert t[SkipStart(s, 0)..SkipEnd(s, |s|)] == s[SkipStart(s, 0)..SkipEnd(s, |s|)];
    }
  }

  lemma {:induction false} SkipStartAppend(s: string, c: char, i: nat)
    requires IsWhitespace(c) && i <= |s|
    ensures SkipStart(s, i) < |s| ==> SkipStart(s + [c], i) == SkipStart(s, i)
    ensures SkipStart(s, i) == |s| ==> SkipStart(s + [c], i) == |s| + 1
    decreases |s| - i
  {
    var t := s + [c];
    if i < |s| {
      assert t[i] == s[i];
      if IsWhitespace(s[i]) {
        SkipStartAppend(s, c, i + 1);
      }
    } else {
      assert t[i] == c;
      assert SkipStart(t, i) == SkipStart(t, i + 1);
    }
  }

  lemma {:induction false} SkipEndAppend(s: string, c: char, j: nat)
    requires j <= |s|
    ensures SkipEnd(s + [c], j) == SkipEnd(s, j)
  {
    if 0 < j {
      assert (s + [c])[j - 1] == s[j - 1];
      if IsWhitespace(s[j - 1]) {
        SkipEndAppend(s, c, j - 1);
      }
    }
  }

  /** `s.indexOf(c)`: the position of the first `c` in `s`, or -1 when
      there is none (`IndexOfIsFirst` states that it is the first). */
  function IndexOf(s: string, c: char): (r: int)
    ensures -1 <= r < |s|
    ensures r != -1 ==> s[r] == c
  {
    IndexFrom(s, c, 0)
  }

  /** The search of `indexOf`, from position `i` on. */
  function IndexFrom(s: string, c: char, i: nat): (r: int)
    requires i <= |s|
    ensures r == -1 || (i <= r < |s| && s[r] == c)
    decreases |s| - i
  {
    if i == |s| then -1 else if s[i] == c then i else IndexFrom(s, c, i + 1)
  }

  lemma {:induction false} IndexFromIsFirst(s: string, c: char, i: nat)
    requires i <= |s|
    ensures IndexFrom(s, c, i) == -1 <==> c !in s[i..]
    ensures IndexFrom(s, c, i) != -1 ==> c !in s[i..IndexFrom(s, c, i)]
    decreases |s| - i
  {
    if i < |s| && s[i] != c {
      IndexFromIsFirst(s, c, i + 1);
      assert s[i..] == [s[i]] + s[i + 1..];
      if IndexFrom(s, c, i) != -1 {
        assert s[i..IndexFrom(s, c, i)] == [s[i]] + s[i + 1..IndexFrom(s, c, i)];
      }
    }
  }

  /** `IndexOf` finds a `c` exactly when there is one, and no `c` comes
      before the one it finds. */
  lemma IndexOfIsFirst(s: string, c: char)
    ensures IndexOf(s, c) == -1 <==> c !in s
    ensures IndexOf(s, c) != -1 ==> c !in s[..IndexOf(s, c)]
  {
    IndexFromIsFirst(s, c, 0);
    assert s[0..] == s;
  }

  lemma {:induction false} IndexFromAppend(s: string, t: string, c: char, i: nat)
    requires i <= |s| && IndexFrom(s, c, i) != -1
    ensures IndexFrom(s + t, c, i) == IndexFrom(s, c, i)
    decreases |s| - i
  {
    if s[i] != c {
      IndexFromAppend(s, t, c, i + 1);
    }
  }

  /** Text appended after an occurrence of `c` does not move its first
      occurrence, nor change what comes before it. */
  lemma IndexOfAppend(s: string, t: string, c: char)
    requires IndexOf(s, c) != -1
    ensures IndexOf(s + t, c) == IndexOf(s, c)
    ensures (s + t)[..IndexOf(s, c)] == s[..IndexOf(s, c)]
    ensures (s + t)[IndexOf(s, c) + 1..] == s[IndexOf(s, c) + 1..] + t
  {
    IndexFromAppend(s, t, c, 0);
    var i := IndexOf(s, c);
    assert (s + t)[..i] == s[..i];
  }

  lemma {:induction false} IndexFromJoined(s: string, c: char, t: string, i: nat)
    requires i <= |s| && c !in s[i..]
    ensures IndexFrom(s + [c] + t, c, i) == |s|
    decreases |s| - i
  {
    if i < |s| {
      assert (s + [c] + t)[i] == s[i];
      assert s[i] in s[i..];
      assert s[i + 1..] <= s[i..][1..];
      IndexFromJoined(s, c, t, i + 1);
    }
  }

  /** In `s + [c] + t` with no `c` in `s`, the first `c` is the one between. */
  lemma IndexOfJoined(s: string, c: char, t: string)
    requires c !in s
    ensures IndexOf(s + [c] + t, c) == |s|
    ensures (s + [c] + t)[..|s|] == s
    ensures (s + [c] + t)[|s| + 1..] == t
  {
    assert s[0..] == s;
    IndexFromJoined(s, c, t, 0);
    var u := s + [c] + t;
    assert u[..|s|] == s;
  }

  /** `s.split(sep)`: the pieces between the separators, in order; there is
      always one more piece than there are separators. */
  function Split(s: string, sep: char): (r: seq<string>)
    ensures |r| >= 1
    ensures forall k :: 0 <= k < |r| ==> sep !in r[k]
    decreases |s|
  {
    var k := IndexOf(s, sep);
    IndexOfIsFirst(s, sep);
    if k == -1 then [s] else [s[..k]] + Split(s[k + 1..], sep)
  }

  /** The first piece, then the pieces of what follows its separator. */
  lemma SplitStep(s: string, sep: char)
    ensures IndexOf(s, sep) == -1 ==> Split(s, sep) == [s]
    ensures IndexOf(s, sep) != -1 ==>
              Split(s, sep) == [s[..IndexOf(s, sep)]] + Split(s[IndexOf(s, sep) + 1..], sep)
  {
  }

  /** Text appended after a separator only changes the pieces after it. */
  lemma SplitAppend(s: string, t: string, sep: char)
    requires IndexOf(s, sep) != -1
    ensures Split(s + t, sep) ==
              [s[..IndexOf(s, sep)]] + Split(s[IndexOf(s, sep) + 1..] + t, sep)
  {
    IndexOfAppend(s, t, sep);
  }

  /** A piece followed by a separator is the first piece. */
  lemma SplitJoined(s: string, sep: char, t: string)
    requires sep !in s
    ensures Split(s + [sep] + t, sep) == [s] + Split(t, sep)
  {
    IndexOfJoined(s, sep, t);
  }

  /** `pieces.join(sep)`, the inverse of `Split`. */
  function Join(pieces: seq<string>, sep: char): (r: string)
    requires |pieces| >= 1
  {
    if |pieces| == 1 then pieces[0] else pieces[0] + [sep] + Join(pieces[1..], sep)
  }

  /** Splitting loses nothing: joining the pieces gives back the text. */
  lemma {:induction false} JoinSplit(s: string, sep: char)
    ensures Join(Split(s, sep), sep) == s
    decreases |s|
  {
    var k := IndexOf(s, sep);
    SplitStep(s, sep);
    if k != -1 {
      JoinSplit(s[k + 1..], sep);
      JoinCons(s[..k], Split(s[k + 1..], sep), sep);
      CutAt(s, k);
    }
  }

  lemma JoinCons(piece: string, pieces: seq<string>, sep: char)
    requires |pieces| >= 1
    ensures Join([piece] + pieces, sep) == piece + [sep] + Join(pieces, sep)
  {
    assert ([piece] + pieces)[1..] == pieces;
  }

  lemma CutAt(s: string, k: nat)
    requires k < |s|
    ensures s == s[..k] + [s[k]] + s[k + 1..]
  {
  }

  /** Joining separator-free pieces and splitting again gives the pieces. */
  lemma {:induction false} SplitJoin(pieces: seq<string>, sep: char)
    requires |pieces| >= 1
    requires forall k :: 0 <= k < |pieces| ==> sep !in pieces[k]
    ensures Split(Join(pieces, sep), sep) == pieces
    decreases |pieces|
  {
    if |pieces| > 1 {
      SplitJoined(pieces[0], sep, Join(pieces[1..], sep));
      SplitJoin(pieces[1..], sep);
    }
  }

  function DigitChar(d: nat): (c: char)
    requires d < 10
    ensures '0' <= c <= '9'
  {
    ['0', '1', '2', '3', '4', '5', '6', '7', '8', '9'][d]
  }

  /** How a non-negative integer is written in a template literal: its
      decimal digits, most significant first, without leading zeros. */
  function NatToString(n: nat): (r: string)
    ensures |r| >= 1
    ensures forall k :: 0 <= k < |r| ==> '0' <= r[k] <= '9'
    ensures r[0] == '0' ==> n == 0 && |r| == 1
  {
    if n < 10 then [DigitChar(n)] else NatToString(n / 10) + [DigitChar(n % 10)]
  }

  /** The number a string of decimal digits denotes. */
  function DecimalValue(s: string): nat
    requires forall k :: 0 <= k < |s| ==> '0' <= s[k] <= '9'
  {
    if s == [] then 0
    else DecimalValue(s[..|s| - 1]) * 10 + (s[|s| - 1] as int - '0' as int)
  }

  /** Reading back the digits of `NatToString(n)` gives `n`. */
  lemma {:induction false} NatToStringRoundTrip(n: nat)
    ensures DecimalValue(NatToString(n)) == n
  {
    if n >= 10 {
      var init := NatToString(n / 10);
      var last := DigitChar(n % 10);
      SnocParts(init, last);
      NatToStringRoundTrip(n / 10);
      DigitValue(n % 10);
    }
  }

  lemma SnocParts(s: string, c: char)
    ensures (s + [c])[..|s|] == s && (s + [c])[|s|] == c
  {
  }

  lemma DigitValue(d: nat)
    requires d < 10
    ensures DigitChar(d) as int - '0' as int == d
  {
  }
}
