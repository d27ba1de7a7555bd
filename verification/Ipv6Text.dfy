/**
 The text that `IPAddr6.to_str` gives, without its steps: how each group is spelled, which groups
 are left out, and when the last two are written as an IPv4 address.
 */
module Ipv6Text {
  import opened Wrappers
  import opened Text
  import opened Ipv6

  // ----- spelling

  predicate LowerCase(w: string) {
    forall i :: 0 <= i < |w| ==> '0' <= w[i] <= '9' || 'a' <= w[i] <= 'f'
  }

  /** No zero in front, but for the number zero itself. */
  predicate NoLeadingZero(w: string) {
    w != "" && (w[0] == '0' ==> |w| == 1)
  }

  /** The group in lower-case digits: with `zeroDrop` as few as can be, else four. */
  predicate Spelled(w: string, g: nat, zeroDrop: bool) {
    && LowerCase(w) && Value(w, 16) == Some(g)
    && (zeroDrop ==> NoLeadingZero(w)) && (!zeroDrop ==> |w| == 4)
  }

  lemma DigitsLower()
    ensures LowerCase(DIGITS) && forall i :: 0 <= i < 10 ==> '0' <= DIGITS[i] <= '9'
    ensures forall i :: 0 < i < 16 ==> DIGITS[i] != '0'
  {
  }

  lemma InDigits(w: string)
    requires forall c :: c in w ==> c in DIGITS
    ensures LowerCase(w)
  {
    DigitsLower();
    forall i | 0 <= i < |w|
      ensures '0' <= w[i] <= '9' || 'a' <= w[i] <= 'f'
    {
      assert w[i] in DIGITS;
    }
  }

  lemma {:induction false} NumeralLeads(n: nat, base: nat)
    requires IsBase(base)
    ensures NoLeadingZero(Numeral(n, base)) && (n > 0 ==> Numeral(n, base)[0] != '0')
  {
    DigitsLower();
    if n >= base {
      NumeralLeads(Quotient(n, base), base);
    }
  }

  /** How a group is written. */
  lemma GroupSpelled(f: Format, g: Group)
    ensures Spelled(Word(f, g), g, f.zeroDrop)
  {
    InDigits(Numeral(g, 16));
    InDigits(Padded(g));
    NumeralLeads(g, 16);
    hide Value, Numeral, Padded;
  }

  lemma LastDigit(w: string, base: nat)
    requires IsBase(base) && |w| > 1 && Value(w, base).Some?
    ensures Value(w[..|w| - 1], base).Some? && DigitOf(w[|w| - 1]).Some? && DigitOf(w[|w| - 1]).value < base
    ensures Value(w, base).value == Times(Value(w[..|w| - 1], base).value, base) + DigitOf(w[|w| - 1]).value
  {
  }

  lemma OneDigit(w: string, base: nat)
    requires IsBase(base) && |w| == 1 && Value(w, base).Some?
    ensures DigitOf(w[0]) == Value(w, base) && Value(w, base).value < base
  {
  }

  lemma {:induction false} LeadCounts(w: string, base: nat)
    requires IsBase(base) && w != "" && w[0] != '0' && Value(w, base).Some?
    ensures Value(w, base).value > 0
  {
    if |w| == 1 { OneDigit(w, base); } else {
      LastDigit(w, base);
      LeadCounts(w[..|w| - 1], base);
    }
  }

  lemma SameDigit(c: char, d: char)
    requires LowerCase([c]) && LowerCase([d]) && DigitOf(c) == DigitOf(d)
    ensures c == d
  {
    assert [c][0] == c && [d][0] == d;
  }

  lemma SameQuotient(base: nat, a: nat, b: nat, x: nat, y: nat)
    requires IsBase(base) && x < base && y < base && Times(a, base) + x == Times(b, base) + y
    ensures a == b && x == y
  {
  }

  /** Digit strings of one value and one length are the same. */
  lemma {:induction false} SameLength(v: string, w: string, base: nat)
    requires IsBase(base) && LowerCase(v) && LowerCase(w) && |v| == |w|
    requires Value(v, base).Some? && Value(v, base) == Value(w, base)
    ensures v == w
  {
    var n := |v| - 1;
    assert [v[n]][0] == v[n] && [w[n]][0] == w[n];
    if n == 0 {
      OneDigit(v, base);
      OneDigit(w, base);
      SameDigit(v[0], w[0]);
    } else {
      LastDigit(v, base);
      LastDigit(w, base);
      SameQuotient(base, Value(v[..n], base).value, Value(w[..n], base).value,
          DigitOf(v[n]).value, DigitOf(w[n]).value);
      SameLength(v[..n], w[..n], base);
      SameDigit(v[n], w[n]);
      assert v == v[..n] + [v[n]] && w == w[..n] + [w[n]];
    }
  }

  lemma {:induction false} SameWithoutZeros(v: string, w: string, base: nat)
    requires IsBase(base) && LowerCase(v) && LowerCase(w) && NoLeadingZero(v) && NoLeadingZero(w)
    requires Value(v, base).Some? && Value(v, base) == Value(w, base)
    ensures |v| == |w|
    decreases |v|
  {
    if |v| == 1 {
      OneDigit(v, base);
      if |w| > 1 { Longer(w, base); }
    } else if |w| == 1 {
      OneDigit(w, base);
      Longer(v, base);
    } else {
      LastDigit(v, base);
      LastDigit(w, base);
      var v', w' := v[..|v| - 1], w[..|w| - 1];
      SameQuotient(base, Value(v', base).value, Value(w', base).value,
          DigitOf(v[|v| - 1]).value, DigitOf(w[|w| - 1]).value);
      SameWithoutZeros(v', w', base);
    }
  }

  lemma Longer(w: string, base: nat)
    requires IsBase(base) && |w| > 1 && w[0] != '0' && Value(w, base).Some?
    ensures Value(w, base).value >= base
  {
    LastDigit(w, base);
    LeadCounts(w[..|w| - 1], base);
  }

  /** A group has one spelling. */
  lemma SpelledOnce(v: string, w: string, g: nat, zeroDrop: bool)
    requires Spelled(v, g, zeroDrop) && Spelled(w, g, zeroDrop)
    ensures v == w
  {
    if zeroDrop { SameWithoutZeros(v, w, 16); }
    SameLength(v, w, 16);
  }

  /** A number below 256 in decimal digits. */
  predicate SpelledDecimal(w: string, n: nat) {
    (forall i :: 0 <= i < |w| ==> '0' <= w[i] <= '9') && Value(w, 10) == Some(n) && n < 256 && NoLeadingZero(w)
  }

  /** Four numbers with dots in between, */
  predicate FourNumbers(w: string, ps: seq<string>, ns: seq<nat>) {
    && |ps| == |ns| == 4 && w == ps[0] + "." + ps[1] + "." + ps[2] + "." + ps[3]
    && forall i :: 0 <= i < 4 ==> SpelledDecimal(ps[i], ns[i])
  }

  /** which are the bytes of two groups. */
  ghost predicate Dotted(w: string, x: Group, y: Group) {
    exists ps, ns ::
      FourNumbers(w, ps, ns) && x == ns[0] * 256 + ns[1] && y == ns[2] * 256 + ns[3]
  }

  lemma {:induction false} DecimalDigits(n: nat)
    ensures forall i :: 0 <= i < |Numeral(n, 10)| ==> '0' <= Numeral(n, 10)[i] <= '9'
  {
    DigitsLower();
    if n >= 10 { DecimalDigits(Quotient(n, 10)); }
  }

  lemma ByteSpelled(n: nat)
    requires n < 256
    ensures SpelledDecimal(Numeral(n, 10), n)
  {
    DecimalDigits(n);
    ValueOfNumeral(n, 10);
    NumeralLeads(n, 10);
    hide Value, Numeral;
  }

  lemma QuadDotted(x: Group, y: Group)
    ensures Dotted(Quad(x, y), x, y)
  {
    var ns: seq<nat> := [x / 256, x % 256, y / 256, y % 256];
    var ps := [Numeral(ns[0], 10), Numeral(ns[1], 10), Numeral(ns[2], 10), Numeral(ns[3], 10)];
    forall i | 0 <= i < 4
      ensures SpelledDecimal(ps[i], ns[i])
    {
      ByteSpelled(ns[i]);
    }
    hide Numeral, SpelledDecimal;
    FourJoined(ps[0], ps[1], ps[2], ps[3]);
    assert FourNumbers(Quad(x, y), ps, ns);
  }

  lemma FourJoined(a: string, b: string, c: string, d: string)
    ensures Joined([a, b, c, d], '.') == a + "." + b + "." + c + "." + d
  {
    assert [a, b, c, d][1..] == [b, c, d] && [b, c, d][1..] == [c, d] && [c, d][1..] == [d];
    assert Joined([d], '.') == d;
    assert Joined([c, d], '.') == c + "." + d;
    assert Joined([b, c, d], '.') == b + "." + (c + "." + d);
    assert Joined([a, b, c, d], '.') == a + "." + (b + "." + (c + "." + d));
  }

  // ----- which groups are left out

  /** The leftmost of the longest runs of zeros, at least two groups long. */
  ghost predicate LeftOut(gs: seq<Group>, p: nat, n: nat) {
    && n >= 2 && ZeroRun(gs, p, n)
    && forall i: nat, m: nat :: ZeroRun(gs, i, m) ==> m < n || (m == n && p <= i)
  }

  /** The search over eight groups finds it among the first k, when no later one is zero. */
  lemma SearchFinds(o: Address, k: nat, p: nat, n: nat)
    requires k <= 8 && (forall i :: k <= i < 8 ==> o[i] != 0) && LeftOut(o[..k], p, n)
    ensures BestStart(o, 8) == p && RunAt(o, p) == n
  {
    var q := BestStart(o, 8);
    assert ZeroRun(o, p, n);
    RunIsLongest(o, p, n);
    SameRun(o, k, q);
    SameRun(o, k, p);
  }

  lemma SameRun(o: Address, k: nat, q: nat)
    requires k <= 8 && (forall i :: k <= i < 8 ==> o[i] != 0) && q < 8 && RunAt(o, q) > 0
    ensures ZeroRun(o[..k], q, RunAt(o, q))
  {
    assert o[q + RunAt(o, q) - 1] == 0;
  }

  lemma SearchFindsNothing(o: Address, k: nat)
    requires k <= 8 && (forall i :: k <= i < 8 ==> o[i] != 0) && forall p: nat, n: nat :: !LeftOut(o[..k], p, n)
    ensures RunAt(o, BestStart(o, 8)) <= 1
  {
    var q := BestStart(o, 8);
    if RunAt(o, q) > 1 {
      SameRun(o, k, q);
      forall i: nat, m: nat | ZeroRun(o[..k], i, m)
        ensures m < RunAt(o, q) || (m == RunAt(o, q) && q <= i)
      {
        if m > 0 {
          assert ZeroRun(o, i, m);
          RunIsLongest(o, i, m);
        }
      }
      assert LeftOut(o[..k], q, RunAt(o, q));
      assert false;
    }
  }

  // ----- the whole text

  /** The last two groups are written as an IPv4 address: if asked for, or by default in ::ffff:0:0/96. */
  predicate InIpv4(f: Format, a: Address) {
    f.ipv4 == Some(true) || (f.ipv4 == None && a[0] == a[1] == a[2] == a[3] == a[4] == 0 && a[5] == 0xffff)
  }

  function Written(f: Format, a: Address): (gs: seq<Group>) {
    if InIpv4(f, a) then a[..6] else a
  }

  /** The parts of the text: the groups that are written, and the IPv4 address. */
  ghost predicate PartsOf(f: Format, a: Address, ws: seq<string>) {
    var n := |Written(f, a)|;
    && |ws| == (if InIpv4(f, a) then 7 else 8)
    && (forall i :: 0 <= i < n ==> Spelled(ws[i], a[i], f.zeroDrop))
    && (InIpv4(f, a) ==> Dotted(ws[6], a[6], a[7]))
  }

  /**
   The text of every address in every format: its parts with colons in between, but for the
   leftmost longest run of two zeros or more, which is left out if sections are to be dropped.
   */
  ghost predicate TextOf(f: Format, a: Address, s: string) {
    exists ws :: PartsOf(f, a, ws) && PutTogether(f, a, ws, s)
  }

  ghost predicate PutTogether(f: Format, a: Address, ws: seq<string>, s: string)
    requires PartsOf(f, a, ws)
  {
    var gs := Written(f, a);
    && (forall p: nat, n: nat :: f.sectionDrop && LeftOut(gs, p, n) ==>
          s == Joined(ws[..p], ':') + "::" + Joined(ws[p + n..], ':'))
    && (!f.sectionDrop || (forall p: nat, n: nat :: !LeftOut(gs, p, n)) ==> s == Joined(ws, ':'))
  }

  lemma ShowsIt(f: Format, a: Address)
    ensures InIpv4(f, a) <==> ShowsIpv4(f, a)
    ensures Written(f, a) == Shown(f, a)[..|Written(f, a)|]
    ensures forall i :: |Written(f, a)| <= i < 8 ==> Shown(f, a)[i] != 0
  {
    var m: seq<Group> := [0, 0, 0, 0, 0, 0xffff];
    assert a[..6] == m <==> a[0] == a[1] == a[2] == a[3] == a[4] == 0 && a[5] == 0xffff;
  }

  /** The words that the text is made of. */
  function PartWords(f: Format, a: Address): seq<string> {
    if InIpv4(f, a) then Words(f, a[..6]) + [Quad(a[6], a[7])] else Words(f, a)
  }

  lemma PartWordsOk(f: Format, a: Address)
    ensures PartsOf(f, a, PartWords(f, a))
  {
    forall i | 0 <= i < 8
      ensures Spelled(Word(f, a[i]), a[i], f.zeroDrop)
    {
      GroupSpelled(f, a[i]);
    }
    QuadDotted(a[6], a[7]);
    hide Word, Spelled, Dotted, Quad;
  }

  /** Without an IPv4 part. */
  lemma PlainParts(f: Format, a: Address)
    requires !InIpv4(f, a)
    ensures PartsOf(f, a, PartWords(f, a)) && PutTogether(f, a, PartWords(f, a), ToText(f, a))
  {
    PartWordsOk(f, a);
    ShowsIt(f, a);
    hide Joined, ZeroRun, RunAt, BestStart, LeftOut, PartsOf;
    assert a[..8] == a;
    var ws := Words(f, a);
    forall p: nat, n: nat | f.sectionDrop && LeftOut(a, p, n)
      ensures p + n <= 8 && ToText(f, a) == Joined(ws[..p], ':') + "::" + Joined(ws[p + n..], ':')
    {
      SearchFinds(a, 8, p, n);
      Bounds(a, p, n);
      assert ws[..p] == Words(f, a[..p]) && ws[p + n..] == Words(f, a[p + n..]);
    }
    if forall p: nat, n: nat :: !LeftOut(a, p, n) { SearchFindsNothing(a, 8); }
  }

  lemma Bounds(gs: seq<Group>, p: nat, n: nat)
    requires LeftOut(gs, p, n)
    ensures 2 <= n && p + n <= |gs|
  {
  }

  lemma WordsSlices(f: Format, gs: seq<Group>, p: nat, end: nat, w: string)
    requires p <= end <= |gs|
    ensures var ws := Words(f, gs) + [w];
            ws[..p] == Words(f, gs[..p]) && ws[end..] == Words(f, gs[end..]) + [w]
  {
  }

  /** With one: the place-holders for the last two groups are taken off again. */
  lemma Ipv4Parts(f: Format, a: Address)
    requires InIpv4(f, a)
    ensures PartsOf(f, a, PartWords(f, a)) && PutTogether(f, a, PartWords(f, a), ToText(f, a))
  {
    PartWordsOk(f, a);
    ShowsIt(f, a);
    hide Joined, ZeroRun, RunAt, BestStart, LeftOut, PartsOf, WithoutLastTwo, Quad, Words;
    var o, gs, quad := Shown(f, a), a[..6], Quad(a[6], a[7]);
    var ws := Words(f, gs) + [quad];
    assert o[..6] == gs;
    forall p: nat, n: nat | f.sectionDrop && LeftOut(gs, p, n)
      ensures p + n <= 6 && ToText(f, a) == Joined(ws[..p], ':') + "::" + Joined(ws[p + n..], ':')
    {
      SearchFinds(o, 6, p, n);
      Bounds(gs, p, n);
      WordsSlices(f, gs, p, p + n, quad);
      TailElided(f, a, p, p + n, quad);
    }
    if !f.sectionDrop || forall p: nat, n: nat :: !LeftOut(gs, p, n) {
      if f.sectionDrop { SearchFindsNothing(o, 6); }
      TailAll(f, a, quad);
    }
  }

  lemma TailElided(f: Format, a: Address, p: nat, end: nat, quad: string)
    requires p <= end <= 6
    ensures var o := a[..6] + [1, 1];
            WithoutLastTwo(Elided(f, o, p, end)) + ":" + quad
            == Joined(Words(f, a[..6][..p]), ':') + "::" + Joined(Words(f, a[..6][end..]) + [quad], ':')
  {
    var o := a[..6] + [1, 1];
    var ws1, ws2, w := Words(f, a[..p]), Words(f, a[end..6]), Word(f, 1);
    assert o[..p] == a[..p] == a[..6][..p] && a[..6][end..] == a[end..6] && o[end..] == a[end..6] + [1, 1];
    WordsConcat(f, a[end..6], [1, 1]);
    TwoWords(f);
    hide Words, Word;
    ElidedLeadText(ws1, ws2, w, w);
    LastTwo(ElidedLead(ws1, ws2), w, w);
    hide WithoutLastTwo;
    TailOfLead(ws1, ws2, quad);
  }

  lemma TailOfLead(ws1: seq<string>, ws2: seq<string>, quad: string)
    ensures ElidedLead(ws1, ws2) + ":" + quad == Joined(ws1, ':') + "::" + Joined(ws2 + [quad], ':')
  {
    assert Joined([quad], ':') == quad;
    if ws2 == [] {
      assert ws2 + [quad] == [quad];
    } else {
      JoinedConcat(ws2, [quad], ':');
    }
    hide Joined;
  }

  lemma TailAll(f: Format, a: Address, quad: string)
    ensures WithoutLastTwo(Joined(Words(f, a[..6] + [1, 1]), ':')) + ":" + quad
         == Joined(Words(f, a[..6]) + [quad], ':')
  {
    var ws, w := Words(f, a[..6]), Word(f, 1);
    WordsConcat(f, a[..6], [1, 1]);
    TwoWords(f);
    assert Joined([quad], ':') == quad && |ws| == 6;
    hide Words, Word;
    AllLead(ws, w, w);
    LastTwo(Joined(ws, ':'), w, w);
    JoinedConcat(ws, [quad], ':');
    hide WithoutLastTwo, Joined;
  }

  /** What `to_str` prints, in every format. */
  lemma Printed(f: Format, a: Address)
    ensures TextOf(f, a, ToText(f, a))
    ensures '.' in ToText(f, a) <==> InIpv4(f, a)
  {
    hide PartsOf, PutTogether, PartWords;
    ShowsIt(f, a);
    if InIpv4(f, a) {
      Ipv4Parts(f, a);
      QuadBack(a[6], a[7]);
    } else {
      PlainParts(f, a);
      GroupedNoDots(f, a);
    }
    hide Quad, Grouped, ParseQuad, WithoutLastTwo;
  }

  lemma DecimalOnce(v: string, w: string, n: nat)
    requires SpelledDecimal(v, n) && SpelledDecimal(w, n)
    ensures v == w
  {
    SameWithoutZeros(v, w, 10);
    SameLength(v, w, 10);
  }

  lemma SameBytes(k: nat, l: nat, k': nat, l': nat)
    requires l < 256 && l' < 256 && k * 256 + l == k' * 256 + l'
    ensures k == k' && l == l'
  {
  }

  lemma DottedOnce(v: string, w: string, x: Group, y: Group)
    requires Dotted(v, x, y) && Dotted(w, x, y)
    ensures v == w
  {
    var ps, ns :| FourNumbers(v, ps, ns) && x == ns[0] * 256 + ns[1] && y == ns[2] * 256 + ns[3];
    var qs, ms :| FourNumbers(w, qs, ms) && x == ms[0] * 256 + ms[1] && y == ms[2] * 256 + ms[3];
    forall i | 0 <= i < 4
      ensures ns[i] < 256 && ms[i] < 256
    {
      ByteBound(ps[i], ns[i]);
      ByteBound(qs[i], ms[i]);
    }
    SameBytes(ns[0], ns[1], ms[0], ms[1]);
    SameBytes(ns[2], ns[3], ms[2], ms[3]);
    SameNumbers(v, w, ps, qs, ns, ms);
  }

  lemma SameNumbers(v: string, w: string, ps: seq<string>, qs: seq<string>, ns: seq<nat>, ms: seq<nat>)
    requires FourNumbers(v, ps, ns) && FourNumbers(w, qs, ms)
    requires ns[0] == ms[0] && ns[1] == ms[1] && ns[2] == ms[2] && ns[3] == ms[3]
    ensures v == w
  {
    hide SpelledDecimal;
    forall i | 0 <= i < 4
      ensures ps[i] == qs[i]
    {
      DecimalOnce(ps[i], qs[i], ns[i]);
    }
  }

  lemma ByteBound(w: string, n: nat)
    requires SpelledDecimal(w, n)
    ensures n < 256
  {
  }

  lemma OneList(f: Format, a: Address, ws: seq<string>, vs: seq<string>)
    requires PartsOf(f, a, ws) && PartsOf(f, a, vs)
    ensures ws == vs
  {
    hide Spelled, Dotted;
    forall i | 0 <= i < |ws|
      ensures ws[i] == vs[i]
    {
      if i < |Written(f, a)| {
        SpelledOnce(ws[i], vs[i], a[i], f.zeroDrop);
      } else {
        DottedOnce(ws[6], vs[6], a[6], a[7]);
      }
    }
  }

  /** There is no other text that fits. */
  lemma OneText(f: Format, a: Address, s: string)
    requires TextOf(f, a, s)
    ensures s == ToText(f, a)
  {
    Printed(f, a);
    var t := ToText(f, a);
    hide PartsOf, PutTogether, InIpv4, ToText;
    var ws :| PartsOf(f, a, ws) && PutTogether(f, a, ws, s);
    var vs :| PartsOf(f, a, vs) && PutTogether(f, a, vs, t);
    OneList(f, a, ws, vs);
    OnePlace(f, a, ws, s, t);
  }

  lemma OnePlace(f: Format, a: Address, ws: seq<string>, s: string, t: string)
    requires PartsOf(f, a, ws) && PutTogether(f, a, ws, s) && PutTogether(f, a, ws, t)
    ensures s == t
  {
    hide PartsOf, LeftOut, Joined, Written;
  }

  // ----- reading

  /** The separator stands twice in a row. */
  predicate PairAt(s: string, sep: char, i: int) {
    0 <= i < |s| - 1 && s[i] == sep && s[i + 1] == sep
  }

  lemma Later(s: string, sep: char, n: nat)
    requires n <= |s|
    ensures forall i :: PairAt(s[n..], sep, i) ==> PairAt(s, sep, i + n)
    ensures forall i :: i >= n && PairAt(s, sep, i) ==> PairAt(s[n..], sep, i - n)
  {
  }

  lemma {:induction false} PairCounted(s: string, sep: char)
    ensures CountPairs(s, sep) > 0 <==> exists i :: PairAt(s, sep, i)
    decreases |s|
  {
    if |s| >= 2 && !PairAt(s, sep, 0) {
      PairCounted(s[1..], sep);
      Later(s, sep, 1);
      assert CountPairs(s, sep) == CountPairs(s[1..], sep);
      hide PairAt, CountPairs;
      if i :| PairAt(s[1..], sep, i) {
        assert PairAt(s, sep, i + 1);
      }
      if i :| PairAt(s, sep, i) {
        InString(s, sep, i);
        assert PairAt(s[1..], sep, i - 1);
      }
    }
  }

  lemma InString(s: string, sep: char, i: int)
    requires PairAt(s, sep, i)
    ensures 0 <= i < |s| - 1
  {
  }

  /** What `s.count` says: two or more exactly if there are two pairs that do not overlap. */
  lemma {:induction false} TwoCounted(s: string, sep: char)
    ensures CountPairs(s, sep) >= 2 <==> exists i, j :: PairAt(s, sep, i) && PairAt(s, sep, j) && i + 2 <= j
    decreases |s|
  {
    if |s| >= 2 {
      var n := if PairAt(s, sep, 0) then 2 else 1;
      var t := s[n..];
      PairCounted(t, sep);
      Later(s, sep, n);
      assert CountPairs(s, sep) == CountPairs(t, sep) + n - 1;
      if n == 1 { TwoCounted(t, sep); }
      hide PairAt, CountPairs;
      if i, j :| PairAt(s, sep, i) && PairAt(s, sep, j) && i + 2 <= j {
        InString(s, sep, i);
        assert PairAt(t, sep, j - n);
        assert n == 1 ==> PairAt(t, sep, i - n);
      }
      if CountPairs(s, sep) >= 2 {
        if n == 1 {
          var i, j :| PairAt(t, sep, i) && PairAt(t, sep, j) && i + 2 <= j;
          assert PairAt(s, sep, i + 1) && PairAt(s, sep, j + 1);
        } else {
          var j :| PairAt(t, sep, j);
          InString(t, sep, j);
          assert PairAt(s, sep, 0) && PairAt(s, sep, j + 2);
        }
      }
    }
  }

  /** Four decimal numbers below 256, whose bytes make two groups. */
  predicate IsQuad(q: string, x: Group, y: Group) {
    var ps := Pieces(q, '.');
    && |ps| == 4
    && (forall i :: 0 <= i < 4 ==> Octet(ps[i]))
    && x == Value(ps[0], 10).value * 256 + Value(ps[1], 10).value
    && y == Value(ps[2], 10).value * 256 + Value(ps[3], 10).value
  }

  /** The text is some groups, read with two more zeros, and a quad that stands for those. */
  predicate MixedText(s: string, head: string, quad: string, a: Address) {
    && s == head + ":" + quad && ':' !in quad && '.' !in head
    && ParseGroups(head + ":0:0").Some? && a[..6] == ParseGroups(head + ":0:0").value[..6]
    && IsQuad(quad, a[6], a[7])
  }

  lemma QuadRead(q: string)
    ensures forall x: Group, y: Group :: IsQuad(q, x, y) <==> ParseQuad(q) == Some((x, y))
  {
    hide Value, Pieces;
  }

  /** Which texts with a dot are accepted, and what they mean. */
  lemma AcceptedMixed(s: string, a: Address)
    requires '.' in s
    ensures Parse(s) == Some(a) <==> exists head, quad :: MixedText(s, head, quad, a)
  {
    if Parse(s) == Some(a) {
      var head, quad := BeforeLast(s, ':'), AfterLast(s, ':');
      LastParts(s, ':');
      QuadRead(quad);
      SixAndTwo(a);
      hide ParseGroups, ParseQuad, BeforeLast, AfterLast, IsQuad;
      assert MixedText(s, head, quad, a);
    }
    if exists head, quad :: MixedText(s, head, quad, a) {
      var head, quad :| MixedText(s, head, quad, a);
      LastSplit(head, quad, ':');
      QuadRead(quad);
      SixAndTwo(a);
      hide ParseGroups, ParseQuad, BeforeLast, AfterLast, IsQuad;
      assert head + ":" + quad == head + [':'] + quad;
    }
  }

  lemma SixAndTwo(a: Address)
    ensures a == a[..6] + [a[6], a[7]]
  {
  }

  lemma {:induction false} LastParts(s: string, sep: char)
    requires sep in s
    ensures s == BeforeLast(s, sep) + [sep] + AfterLast(s, sep) && sep !in AfterLast(s, sep)
  {
    var n := |s| - 1;
    assert s == s[..n] + [s[n]];
    if s[n] != sep {
      LastParts(s[..n], sep);
    }
  }
}
