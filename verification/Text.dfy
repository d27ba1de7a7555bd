/** Strings as lib/pox/pox/lib/addresses.py handles them: joining, splitting, and numbers in a base. */
module Text {
  import opened Wrappers

  /** `sep.join(parts)` */
  function Joined(parts: seq<string>, sep: char): string {
    if parts == [] then "" else if |parts| == 1 then parts[0] else parts[0] + [sep] + Joined(parts[1..], sep)
  }

  /** `s.split(sep)` */
  function Pieces(s: string, sep: char): (ps: seq<string>)
    ensures |ps| > 0
  {
    if s == "" then [""] else PutFirst(s[0], Pieces(s[1..], sep), sep)
  }

  /** The pieces when one more character comes first. */
  function PutFirst(c: char, ps: seq<string>, sep: char): (qs: seq<string>)
    requires |ps| > 0
    ensures |qs| > 0
  {
    if c == sep then [""] + ps else [[c] + ps[0]] + ps[1..]
  }

  lemma PutFirstConcat(c: char, ps: seq<string>, qs: seq<string>, sep: char)
    requires |ps| > 0
    ensures PutFirst(c, ps + qs, sep) == PutFirst(c, ps, sep) + qs
  {
  }

  /** A non-empty string without the separator. */
  predicate IsWord(w: string, sep: char) {
    w != "" && sep !in w
  }

  predicate AllWords(ws: seq<string>, sep: char) {
    forall i :: 0 <= i < |ws| ==> IsWord(ws[i], sep)
  }

  lemma {:induction false} PiecesOfWord(w: string, sep: char)
    requires sep !in w
    ensures Pieces(w, sep) == [w]
  {
    if w != "" {
      PiecesOfWord(w[1..], sep);
      assert w == [w[0]] + w[1..];
    }
  }

  /** Splitting takes a joined text apart at any separator. */
  lemma {:induction false} PiecesConcat(a: string, b: string, sep: char)
    ensures Pieces(a + [sep] + b, sep) == Pieces(a, sep) + Pieces(b, sep)
  {
    var s := a + [sep] + b;
    if a == "" {
      assert s[1..] == b;
    } else {
      PiecesConcat(a[1..], b, sep);
      assert s[0] == a[0] && s[1..] == a[1..] + [sep] + b;
      PutFirstConcat(a[0], Pieces(a[1..], sep), Pieces(b, sep), sep);
      hide PutFirst;
    }
  }

  lemma {:induction false} PiecesJoined(ws: seq<string>, sep: char)
    requires AllWords(ws, sep)
    ensures Pieces(Joined(ws, sep), sep) == if ws == [] then [""] else ws
  {
    if ws != [] {
      assert IsWord(ws[0], sep);
      PiecesOfWord(ws[0], sep);
      if |ws| > 1 {
        PiecesJoined(ws[1..], sep);
        PiecesConcat(ws[0], Joined(ws[1..], sep), sep);
      }
    }
  }

  lemma {:induction false} JoinedPieces(s: string, sep: char)
    ensures Joined(Pieces(s, sep), sep) == s
    ensures forall i :: 0 <= i < |Pieces(s, sep)| ==> sep !in Pieces(s, sep)[i]
  {
    if s != "" {
      JoinedPieces(s[1..], sep);
      JoinedFirst(s[0], Pieces(s[1..], sep), sep);
      assert s == [s[0]] + s[1..];
    }
  }

  lemma JoinedFirst(c: char, ps: seq<string>, sep: char)
    requires |ps| > 0
    ensures Joined(PutFirst(c, ps, sep), sep) == [c] + Joined(ps, sep)
  {
    var qs := PutFirst(c, ps, sep);
    if c == sep {
      assert qs[1..] == ps;
    } else {
      assert qs[0] == [c] + ps[0] && qs[1..] == ps[1..];
    }
  }

  lemma {:induction false} JoinedConcat(a: seq<string>, b: seq<string>, sep: char)
    requires a != [] && b != []
    ensures Joined(a + b, sep) == Joined(a, sep) + [sep] + Joined(b, sep)
  {
    if |a| == 1 {
      assert (a + b)[1..] == b;
    } else {
      JoinedConcat(a[1..], b, sep);
      assert (a + b)[1..] == a[1..] + b;
    }
  }

  /** The part before the last separator: `s.rsplit(sep, 1)[0]`. */
  function BeforeLast(s: string, sep: char): string
    requires sep in s
  {
    if s[|s| - 1] == sep then s[..|s| - 1] else BeforeLast(s[..|s| - 1], sep)
  }

  /** `s.rsplit(sep, 1)[1]` */
  function AfterLast(s: string, sep: char): string
    requires sep in s
  {
    if s[|s| - 1] == sep then "" else AfterLast(s[..|s| - 1], sep) + [s[|s| - 1]]
  }

  lemma {:induction false} LastSplit(a: string, b: string, sep: char)
    requires sep !in b
    ensures var s := a + [sep] + b; sep in s && BeforeLast(s, sep) == a && AfterLast(s, sep) == b
  {
    var s := a + [sep] + b;
    assert s[|a|] == sep;
    if b == "" {
      assert s[..|s| - 1] == a;
    } else {
      var c := b[..|b| - 1];
      LastSplit(a, c, sep);
      assert s[|s| - 1] == b[|b| - 1] && s[..|s| - 1] == a + [sep] + c;
      assert b == c + [b[|b| - 1]];
    }
  }

  /** `s.count(sep + sep)`, which does not count overlapping pairs. */
  function CountPairs(s: string, sep: char): nat {
    if |s| < 2 then 0
    else if s[0] == sep && s[1] == sep then 1 + CountPairs(s[2..], sep)
    else CountPairs(s[1..], sep)
  }

  lemma {:induction false} CountAfterWord(w: string, rest: string, sep: char)
    requires sep !in w
    ensures CountPairs(w + rest, sep) == CountPairs(rest, sep)
  {
    if w == "" {
      assert w + rest == rest;
    } else {
      CountAfterWord(w[1..], rest, sep);
      var s := w + rest;
      assert s[0] == w[0] && s[1..] == w[1..] + rest;
      if |s| < 2 {
        assert rest == "";
      }
    }
  }

  lemma {:induction false} CountAfterJoined(ws: seq<string>, rest: string, sep: char)
    requires AllWords(ws, sep)
    ensures CountPairs(Joined(ws, sep) + rest, sep) == CountPairs(rest, sep)
  {
    if ws == [] {
      assert Joined(ws, sep) + rest == rest;
    } else {
      assert IsWord(ws[0], sep);
      if |ws| == 1 {
        CountAfterWord(ws[0], rest, sep);
      } else {
        assert IsWord(ws[1], sep);
        var tail := Joined(ws[1..], sep) + rest;
        CountAfterJoined(ws[1..], rest, sep);
        assert Joined(ws, sep) + rest == ws[0] + ([sep] + tail);
        CountAfterWord(ws[0], [sep] + tail, sep);
        assert ([sep] + tail)[1..] == tail && tail[0] == ws[1][0];
      }
    }
  }

  // ----- numbers

  const DIGITS := "0123456789abcdef"

  function DigitOf(c: char): Option<nat> {
    if '0' <= c <= '9' then Some(c as nat - '0' as nat)
    else if 'a' <= c <= 'f' then Some(c as nat - 'a' as nat + 10)
    else if 'A' <= c <= 'F' then Some(c as nat - 'A' as nat + 10)
    else None
  }

  /** The bases of this program: multiplication and division by each of them are linear. */
  predicate IsBase(base: nat) {
    base == 10 || base == 16
  }

  function Times(n: nat, base: nat): nat
    requires IsBase(base)
  {
    if base == 10 then n * 10 else n * 16
  }

  function Quotient(n: nat, base: nat): (q: nat)
    requires IsBase(base)
    ensures n >= base ==> q < n
  {
    if base == 10 then n / 10 else n / 16
  }

  function Remainder(n: nat, base: nat): (r: nat)
    requires IsBase(base)
    ensures r < base && Times(Quotient(n, base), base) + r == n
  {
    if base == 10 then n % 10 else n % 16
  }

  /** `'%x' % n` and `'%d' % n` */
  function Numeral(n: nat, base: nat): (s: string)
    requires IsBase(base)
    ensures |s| > 0 && forall c :: c in s ==> c in DIGITS
  {
    if n < base then [DIGITS[n]] else Numeral(Quotient(n, base), base) + [DIGITS[Remainder(n, base)]]
  }

  /** `'%04x' % n` */
  function Padded(n: nat): (s: string)
    requires n < 0x1_0000
    ensures |s| == 4 && forall c :: c in s ==> c in DIGITS
  {
    [DIGITS[n / 4096], DIGITS[n / 256 % 16], DIGITS[n / 16 % 16], DIGITS[n % 16]]
  }

  /** `int(s, base)` of a string of digits; None is a ValueError. */
  function Value(s: string, base: nat): Option<nat>
    requires IsBase(base)
  {
    if s == "" then None
    else
      var d := DigitOf(s[|s| - 1]);
      if d.None? || d.value >= base then None
      else if |s| == 1 then d
      else match Value(s[..|s| - 1], base) case None => None case Some(n) => Some(Times(n, base) + d.value)
  }

  lemma DigitBack(d: nat)
    requires d < 16
    ensures DigitOf(DIGITS[d]) == Some(d)
  {
  }

  lemma {:induction false} ValueOfNumeral(n: nat, base: nat)
    requires IsBase(base)
    ensures Value(Numeral(n, base), base) == Some(n)
  {
    hide DigitOf, Quotient, Times;
    if n < base {
      DigitBack(n);
    } else {
      var q, r := Quotient(n, base), Remainder(n, base);
      DigitBack(r);
      ValueOfNumeral(q, base);
      AppendDigit(Numeral(q, base), r, base);
    }
  }

  lemma AppendDigit(s: string, d: nat, base: nat)
    requires IsBase(base) && s != "" && d < base
    ensures Value(s + [DIGITS[d]], base)
         == match Value(s, base) case None => None case Some(n) => Some(Times(n, base) + d)
  {
    DigitBack(d);
    hide DigitOf;
    assert (s + [DIGITS[d]])[..|s|] == s;
  }

  lemma ValueOfPadded(n: nat)
    requires n < 0x1_0000
    ensures Value(Padded(n), 16) == Some(n)
  {
    var d3, d2, d1, d0 := n / 4096, n / 256 % 16, n / 16 % 16, n % 16;
    FourDigits(n);
    PaddedBack(n, d3, d2, d1, d0);
  }

  lemma FourDigits(n: nat)
    ensures ((n / 4096 * 16 + n / 256 % 16) * 16 + n / 16 % 16) * 16 + n % 16 == n
  {
    assert n / 16 / 16 == n / 256 && n / 256 / 16 == n / 4096;
  }

  lemma PaddedBack(n: nat, d3: nat, d2: nat, d1: nat, d0: nat)
    requires d3 < 16 && d2 < 16 && d1 < 16 && d0 < 16 && n == ((d3 * 16 + d2) * 16 + d1) * 16 + d0
    ensures Value([DIGITS[d3], DIGITS[d2], DIGITS[d1], DIGITS[d0]], 16) == Some(n)
  {
    DigitBack(d3);
    assert Value([DIGITS[d3]], 16) == Some(d3);
    hide Value;
    var s1 := [DIGITS[d3]];
    var s2 := s1 + [DIGITS[d2]];
    var s3 := s2 + [DIGITS[d1]];
    AppendDigit(s1, d2, 16);
    AppendDigit(s2, d1, 16);
    AppendDigit(s3, d0, 16);
    assert [DIGITS[d3], DIGITS[d2], DIGITS[d1], DIGITS[d0]] == s3 + [DIGITS[d0]];
  }
}
