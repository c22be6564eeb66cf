/**
 * The string primitives the scripts rely on: `String.prototype.trim`,
 * ASCII `toUpperCase`/`toLowerCase`, `split(' ')`, `includes`, and the
 * decimal rendering a template literal gives a non-negative integer.
 */
module Text {

  /** The characters ECMAScript's `trim` removes (WhiteSpace and LineTerminator). */
  predicate IsWhitespace(c: char) {
    c == '\t' || c == '\n' || c == '\U{B}' || c == '\U{C}' || c == '\r' || c == ' '
    || c == '\U{A0}' || c == '\U{1680}' || ('\U{2000}' <= c <= '\U{200A}')
    || c == '\U{2028}' || c == '\U{2029}' || c == '\U{202F}' || c == '\U{205F}'
    || c == '\U{3000}' || c == '\U{FEFF}'
  }

  predicate AllWhitespace(s: string) {
    forall i :: 0 <= i < |s| ==> IsWhitespace(s[i])
  }

  /**
   * `s.trim()`: drops whitespace from both ends. Empty exactly when `s` is all whitespace,
   * and otherwise bounded by non-whitespace.
   */
  function Trim(s: string): (r: string)
    ensures |r| <= |s|
    ensures r == [] <==> AllWhitespace(s)
    ensures r == [] || (!IsWhitespace(r[0]) && !IsWhitespace(r[|r| - 1]))
  {
    if |s| > 0 && IsWhitespace(s[0]) then
      assert AllWhitespace(s) <==> AllWhitespace(s[1..]) by {
        assert forall i :: 0 <= i < |s[1..]| ==> s[1..][i] == s[i + 1];
      }
      Trim(s[1..])
    else if |s| > 0 && IsWhitespace(s[|s| - 1]) then
      assert AllWhitespace(s) <==> AllWhitespace(s[..|s| - 1]) by {
        assert forall i :: 0 <= i < |s| - 1 ==> s[..|s| - 1][i] == s[i];
      }
      Trim(s[..|s| - 1])
    else
      s
  }

  /** `r` sits in `s` at `i` with only whitespace around it. */
  predicate FramedBy(s: string, r: string, i: nat) {
    i + |r| <= |s| && r == s[i..i + |r|] && AllWhitespace(s[..i]) && AllWhitespace(s[i + |r|..])
  }

  lemma FramedAfterLeading(s: string, r: string, j: nat)
    requires |s| > 0 && IsWhitespace(s[0]) && FramedBy(s[1..], r, j)
    ensures FramedBy(s, r, j + 1)
  {
    var t := s[1..];
    assert r == t[j..j + |r|] == s[j + 1..j + 1 + |r|];
    var lead := s[..j + 1];
    forall k | 0 <= k < |lead|
      ensures IsWhitespace(lead[k])
    {
      if k > 0 {
        assert lead[k] == t[..j][k - 1];
      }
    }
    assert s[j + 1 + |r|..] == t[j + |r|..];
  }

  lemma FramedBeforeTrailing(s: string, r: string, i: nat)
    requires |s| > 0 && IsWhitespace(s[|s| - 1]) && FramedBy(s[..|s| - 1], r, i)
    ensures FramedBy(s, r, i)
  {
    var t := s[..|s| - 1];
    assert r == t[i..i + |r|] == s[i..i + |r|];
    assert s[..i] == t[..i];
    assert s[i + |r|..] == t[i + |r|..] + [s[|s| - 1]];
  }

  /** What `trim` keeps is the part of `s` from `i` on, with only whitespace dropped on either side. */
  lemma {:induction false} TrimDropsWhitespace(s: string) returns (i: nat)
    ensures FramedBy(s, Trim(s), i)
  {
    if |s| > 0 && IsWhitespace(s[0]) {
      var j := TrimDropsWhitespace(s[1..]);
      FramedAfterLeading(s, Trim(s), j);
      i := j + 1;
    } else if |s| > 0 && IsWhitespace(s[|s| - 1]) {
      i := TrimDropsWhitespace(s[..|s| - 1]);
      FramedBeforeTrailing(s, Trim(s), i);
    } else {
      i := 0;
      assert s[..0] == [] && s[|s|..] == [] && s == s[0..|s|];
    }
  }

  /** A string bounded by non-whitespace is left as it is. */
  lemma TrimOfTrimmed(s: string)
    requires s == [] || (!IsWhitespace(s[0]) && !IsWhitespace(s[|s| - 1]))
    ensures Trim(s) == s
  {
  }

  /** Trimming twice is trimming once. */
  lemma TrimIdempotent(s: string)
    ensures Trim(Trim(s)) == Trim(s)
  {
    TrimOfTrimmed(Trim(s));
  }

  /** Characters `toUpperCase` / `toLowerCase` map, restricted to ASCII letters. */
  function UpperChar(c: char): (r: char)
    ensures 'a' <= c <= 'z' ==> 'A' <= r <= 'Z' && LowerChar(r) == c
    ensures !('a' <= c <= 'z') ==> r == c
  {
    if 'a' <= c <= 'z' then (c as int - 32) as char else c
  }

  function LowerChar(c: char): char {
    if 'A' <= c <= 'Z' then (c as int + 32) as char else c
  }

  function ToLower(s: string): (r: string)
    ensures |r| == |s| && forall i :: 0 <= i < |s| ==> r[i] == LowerChar(s[i])
    ensures forall i :: 0 <= i < |r| ==> !('A' <= r[i] <= 'Z')
    ensures forall i :: 0 <= i < |s| && !('A' <= s[i] <= 'Z') ==> r[i] == s[i]
    ensures forall i :: 0 <= i < |s| && 'A' <= s[i] <= 'Z' ==> UpperChar(r[i]) == s[i]
  {
    seq(|s|, i requires 0 <= i < |s| => LowerChar(s[i]))
  }

  /** Lower-casing is idempotent, so searching by an already lowered term changes nothing. */
  lemma ToLowerIdempotent(s: string)
    ensures ToLower(ToLower(s)) == ToLower(s)
  {
  }

  /** `hay.includes(needle)`. */
  predicate Contains(hay: string, needle: string) {
    exists i | 0 <= i <= |hay| - |needle| :: OccursAt(hay, needle, i)
  }

  predicate OccursAt(hay: string, needle: string, i: nat)
    requires i + |needle| <= |hay|
  {
    hay[i..i + |needle|] == needle
  }

  lemma ContainsEmpty(hay: string)
    ensures Contains(hay, "")
  {
    assert OccursAt(hay, "", 0);
  }

  /** `includes` finds every slice of the text. */
  lemma ContainsSlice(hay: string, i: nat, j: nat)
    requires i <= j <= |hay|
    ensures Contains(hay, hay[i..j])
  {
    assert OccursAt(hay, hay[i..j], i);
  }

  /** A needle longer than the text is never found. */
  lemma ContainsLonger(hay: string, needle: string)
    requires |needle| > |hay|
    ensures !Contains(hay, needle)
  {
  }

  /** Lower-casing a slice is the slice of the lower-cased text. */
  lemma ToLowerSlice(s: string, i: nat, j: nat)
    requires i <= j <= |s|
    ensures ToLower(s[i..j]) == ToLower(s)[i..j]
  {
  }

  /** `s.split(d)`: the pieces between occurrences of `d`; always at least one piece. */
  function Split(s: string, d: char): (r: seq<string>)
    ensures |r| >= 1
    ensures (|r| == 1) <==> d !in s
  {
    if s == [] then [[]]
    else
      var rest := Split(s[1..], d);
      assert s == [s[0]] + s[1..];
      if s[0] == d then [[]] + rest
      else
        assert d in s <==> d in s[1..];
        [[s[0]] + rest[0]] + rest[1..]
  }

  /** Keeps the non-empty pieces, in order. */
  function NonEmpty(ws: seq<string>): (r: seq<string>)
    ensures |r| <= |ws|
    ensures forall k :: 0 <= k < |r| ==> r[k] != []
  {
    if ws == [] then []
    else if ws[0] == [] then NonEmpty(ws[1..])
    else [ws[0]] + NonEmpty(ws[1..])
  }

  /** `s.split(' ').filter(w => w.length > 0)`. */
  function Words(s: string): seq<string> {
    NonEmpty(Split(s, ' '))
  }

  /** Glues pieces back together with `d` between neighbours (`ws.join(d)`). */
  function Join(ws: seq<string>, d: char): (r: string)
    ensures |ws| == 1 ==> r == ws[0]
  {
    if ws == [] then []
    else if |ws| == 1 then ws[0]
    else ws[0] + [d] + Join(ws[1..], d)
  }

  /** No piece of a split contains the separator. */
  lemma {:induction false} SplitPiecesFree(s: string, d: char)
    ensures forall k :: 0 <= k < |Split(s, d)| ==> d !in Split(s, d)[k]
  {
    if s != [] {
      SplitPiecesFree(s[1..], d);
      var rest := Split(s[1..], d);
      if s[0] != d {
        var r := Split(s, d);
        assert r == [[s[0]] + rest[0]] + rest[1..];
        forall k | 0 <= k < |r|
          ensures d !in r[k]
        {
          if k == 0 {
            assert d !in rest[0];
          } else {
            assert r[k] == rest[k];
          }
        }
      }
    }
  }

  /** Prefixing the first piece prefixes the joined text. */
  lemma JoinConsHead(c: char, ws: seq<string>, d: char)
    requires ws != []
    ensures Join([[c] + ws[0]] + ws[1..], d) == [c] + Join(ws, d)
  {
    var r := [[c] + ws[0]] + ws[1..];
    if |ws| > 1 {
      assert r[1..] == ws[1..];
    }
  }

  /** An empty first piece contributes only its separator. */
  lemma JoinConsEmpty(ws: seq<string>, d: char)
    requires ws != []
    ensures Join([[]] + ws, d) == [d] + Join(ws, d)
  {
    assert ([[]] + ws)[1..] == ws;
  }

  /** Splitting loses nothing: joining the pieces with the separator gives the input back. */
  lemma {:induction false} SplitJoin(s: string, d: char)
    ensures Join(Split(s, d), d) == s
  {
    if s != [] {
      SplitJoin(s[1..], d);
      if s[0] == d {
        JoinConsEmpty(Split(s[1..], d), d);
      } else {
        JoinConsHead(s[0], Split(s[1..], d), d);
      }
      assert s == [s[0]] + s[1..];
    }
  }

  /** One step of the filter. */
  lemma NonEmptyCons(w: string, ws: seq<string>)
    ensures NonEmpty([w] + ws) == (if w == [] then [] else [w]) + NonEmpty(ws)
  {
    assert ([w] + ws)[1..] == ws;
  }

  lemma ConcatAssoc(h: seq<string>, x: seq<string>, y: seq<string>)
    ensures h + (x + y) == (h + x) + y
  {
  }

  /** Filtering distributes over concatenation. */
  lemma {:induction false} NonEmptyAppend(a: seq<string>, b: seq<string>)
    ensures NonEmpty(a + b) == NonEmpty(a) + NonEmpty(b)
  {
    if a == [] {
      assert a + b == b;
    } else {
      var t := a[1..];
      NonEmptyAppend(t, b);
      assert a + b == [a[0]] + (t + b);
      assert a == [a[0]] + t;
      NonEmptyCons(a[0], t + b);
      NonEmptyCons(a[0], t);
      ConcatAssoc(if a[0] == [] then [] else [a[0]], NonEmpty(t), NonEmpty(b));
    }
  }

  /** Exactly the non-empty pieces survive the filter. */
  lemma {:induction false} NonEmptyMembers(ws: seq<string>, w: string)
    ensures w in NonEmpty(ws) <==> (w in ws && w != [])
  {
    if ws != [] {
      NonEmptyMembers(ws[1..], w);
      assert ws == [ws[0]] + ws[1..];
    }
  }

  /** The words are exactly the non-empty pieces between spaces, and none contains a space. */
  lemma WordsMembers(s: string, w: string)
    ensures w in Words(s) <==> w in Split(s, ' ') && w != []
    ensures w in Words(s) ==> ' ' !in w
  {
    NonEmptyMembers(Split(s, ' '), w);
    SplitPiecesFree(s, ' ');
  }

  /** Index of the last `c` in `s`, or -1. */
  function LastIndexOf(s: string, c: char): (r: int)
    ensures -1 <= r < |s|
    ensures r >= 0 ==> s[r] == c
    ensures forall i :: r < i < |s| ==> s[i] != c
  {
    if s == [] then -1
    else if s[|s| - 1] == c then |s| - 1
    else LastIndexOf(s[..|s| - 1], c)
  }

  lemma {:induction false} SplitHead(s: string, d: char)
    requires s != [] && s[0] != d
    ensures Split(s, d)[0] != [] && Split(s, d)[0][0] == s[0]
  {
  }

  /** The last piece of a split is what follows the last separator. */
  lemma {:induction false} SplitLast(s: string, d: char)
    ensures var r := Split(s, d); r[|r| - 1] == s[LastIndexOf(s, d) + 1..]
  {
    if s != [] {
      SplitLast(s[1..], d);
      var rest := Split(s[1..], d);
      var p := LastIndexOf(s, d);
      var q := LastIndexOf(s[1..], d);
      LastIndexShift(s, d);
      var r := Split(s, d);
      if s[0] == d {
        assert r == [[]] + rest;
        assert r[|r| - 1] == rest[|rest| - 1];
        assert s[1..][q + 1..] == s[p + 1..];
      } else if |rest| == 1 {
        assert d !in s[1..];
        assert q == -1 && p == -1;
        assert r == [[s[0]] + rest[0]];
        assert [s[0]] + s[1..] == s;
      } else {
        assert r == [[s[0]] + rest[0]] + rest[1..];
        assert r[|r| - 1] == rest[|rest| - 1];
        assert q >= 0 && p == q + 1;
        assert s[1..][q + 1..] == s[p + 1..];
      }
    }
  }

  lemma {:induction false} LastIndexShift(s: string, d: char)
    requires s != []
    ensures var p := LastIndexOf(s, d); var q := LastIndexOf(s[1..], d);
      (q >= 0 ==> p == q + 1) && (q < 0 ==> p == (if s[0] == d then 0 else -1))
  {
    var q := LastIndexOf(s[1..], d);
    if q >= 0 {
      assert s[q + 1] == d;
    }
  }

  lemma {:induction false} NonEmptyFirst(ws: seq<string>)
    requires ws != [] && ws[0] != []
    ensures NonEmpty(ws) != [] && NonEmpty(ws)[0] == ws[0]
  {
  }

  lemma {:induction false} NonEmptyLast(ws: seq<string>)
    requires ws != [] && ws[|ws| - 1] != []
    ensures NonEmpty(ws) != [] && NonEmpty(ws)[|NonEmpty(ws)| - 1] == ws[|ws| - 1]
  {
    if |ws| > 1 {
      NonEmptyLast(ws[1..]);
    }
  }

  /** With a non-empty first and last piece, two or more pieces keep two or more words. */
  lemma {:induction false} NonEmptyCount(ws: seq<string>)
    requires |ws| >= 2 && ws[0] != [] && ws[|ws| - 1] != []
    ensures |NonEmpty(ws)| >= 2
  {
    NonEmptyLast(ws[1..]);
  }

  /** Without a leading space, the first word starts with the first character. */
  lemma {:induction false} FirstWord(t: string)
    requires t != [] && t[0] != ' '
    ensures Words(t) != [] && Words(t)[0] != [] && Words(t)[0][0] == t[0]
  {
    SplitHead(t, ' ');
    NonEmptyFirst(Split(t, ' '));
  }

  /** Without any space there is exactly one word. */
  lemma {:induction false} SingleWord(t: string)
    requires t != [] && ' ' !in t
    ensures |Words(t)| == 1
  {
    var pieces := Split(t, ' ');
    SplitHead(t, ' ');
    assert pieces == [pieces[0]];
    assert NonEmpty(pieces) == [pieces[0]] + NonEmpty([]);
  }

  /** With a space, but none at either end, there are two or more words; the last follows the last space. */
  lemma {:induction false} LastWord(t: string)
    requires t != [] && t[0] != ' ' && t[|t| - 1] != ' ' && ' ' in t
    ensures 0 <= LastIndexOf(t, ' ') < |t| - 1
    ensures |Words(t)| >= 2 && Words(t)[|Words(t)| - 1] == t[LastIndexOf(t, ' ') + 1..]
  {
    var pieces := Split(t, ' ');
    var p := LastIndexOf(t, ' ');
    assert p >= 0 by {
      var j :| 0 <= j < |t| && t[j] == ' ';
    }
    assert pieces[0] != [] by {
      SplitHead(t, ' ');
    }
    assert pieces[|pieces| - 1] == t[p + 1..] && p + 1 < |t| by {
      SplitLast(t, ' ');
    }
    NonEmptyLast(pieces);
    NonEmptyCount(pieces);
  }

  /** The first and last words of a text bounded by non-whitespace that holds a space. */
  lemma TwoOrMoreWords(t: string)
    requires t != [] && !IsWhitespace(t[0]) && !IsWhitespace(t[|t| - 1]) && ' ' in t
    ensures var w := Words(t); |w| >= 2 && w[0][0] == t[0] && w[|w| - 1][0] == t[LastIndexOf(t, ' ') + 1]
  {
    FirstWord(t);
    LastWord(t);
  }

  function DigitChar(d: nat): char
    requires d < 10
  {
    "0123456789"[d]
  }

  function DigitValue(c: char): nat {
    if '0' <= c <= '9' then c as nat - '0' as nat else 0
  }

  /** Decimal rendering of `n`, as a template literal prints it. */
  function NatToString(n: nat): (r: string)
    ensures |r| >= 1
    ensures forall i :: 0 <= i < |r| ==> '0' <= r[i] <= '9'
  {
    if n < 10 then [DigitChar(n)] else NatToString(n / 10) + [DigitChar(n % 10)]
  }

  /** Reading a string of decimal digits back as a number. */
  function ParseNat(s: string): nat {
    if s == [] then 0 else ParseNat(s[..|s| - 1]) * 10 + DigitValue(s[|s| - 1])
  }

  lemma {:induction false} ParseNatToString(n: nat)
    ensures ParseNat(NatToString(n)) == n
  {
    if n >= 10 {
      var s := NatToString(n / 10) + [DigitChar(n % 10)];
      assert s[..|s| - 1] == NatToString(n / 10);
      ParseNatToString(n / 10);
    }
  }

  /** Different numbers print differently. */
  lemma NatToStringInjective(m: nat, n: nat)
    requires m != n
    ensures NatToString(m) != NatToString(n)
  {
    ParseNatToString(m);
    ParseNatToString(n);
  }
}
