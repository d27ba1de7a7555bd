/**
 The text form of IPv6 addresses in lib/pox/pox/lib/addresses.py: `IPAddr6.to_str` and the
 constructor that parses text. An address is its eight 16-bit groups.
 */
module Ipv6 {
  import opened Wrappers
  import opened Text

  const GROUP := 0x1_0000

  type Group = g: nat | g < 0x1_0000
  type Address = a: seq<Group> | |a| == 8 witness [0, 0, 0, 0, 0, 0, 0, 0]

  // ----- runs of zeros

  /** The length of the run of zeros that starts at position i. */
  function RunAt(o: seq<Group>, i: nat): (n: nat)
    requires i <= |o|
    ensures i + n <= |o| && (forall k :: i <= k < i + n ==> o[k] == 0) && (i + n < |o| ==> o[i + n] != 0)
    decreases |o| - i
  {
    if i == |o| || o[i] != 0 then 0 else 1 + RunAt(o, i + 1)
  }

  /** The first of the positions before n where the longest run starts. */
  function BestStart(o: seq<Group>, n: nat): (p: nat)
    requires 1 <= n <= |o|
    ensures p < n
    ensures forall i :: 0 <= i < n ==> RunAt(o, i) <= RunAt(o, p) && (RunAt(o, i) == RunAt(o, p) ==> p <= i)
  {
    if n == 1 then 0
    else
      var p := BestStart(o, n - 1);
      if RunAt(o, n - 1) > RunAt(o, p) then n - 1 else p
  }

  predicate ZeroRun(o: seq<Group>, i: nat, n: nat) {
    i + n <= |o| && forall k :: i <= k < i + n ==> o[k] == 0
  }

  lemma {:induction false} RunIsLongest(o: seq<Group>, i: nat, n: nat)
    requires ZeroRun(o, i, n)
    ensures n <= RunAt(o, i)
    decreases n
  {
    if n > 0 { RunIsLongest(o, i + 1, n - 1); }
  }

  datatype Run = Run(length: nat, pos: nat)

  /** A run that ends before n, or may still grow at n. */
  predicate RunOk(o: seq<Group>, r: Run, n: nat) {
    && r.length >= 1 && r.pos + r.length <= n <= |o| && ZeroRun(o, r.pos, r.length)
    && (r.pos + r.length == n || o[r.pos + r.length] != 0)
  }

  predicate Covered(z: seq<Run>, i: nat) {
    exists k :: 0 <= k < |z| && z[k].pos <= i < z[k].pos + z[k].length
  }

  /** The list that the loop of `to_str` builds: maximal runs, in order, which cover every zero before n. */
  ghost predicate Runs(o: seq<Group>, z: seq<Run>, n: nat)
    requires n <= |o|
  {
    && (forall k :: 0 <= k < |z| ==> RunOk(o, z[k], n))
    && (forall j, k :: 0 <= j < k < |z| ==> z[j].pos + z[j].length < z[k].pos)
    && (forall i :: 0 <= i < n && o[i] == 0 ==> Covered(z, i))
  }

  /** The loop over the groups; `run` says that the last run of z may still grow. */
  method ZeroRuns(o: seq<Group>) returns (z: seq<Run>)
    ensures Runs(o, z, |o|)
  {
    z := [];
    var run := false;
    for i := 0 to |o|
      invariant Runs(o, z, i)
      invariant run ==> z != [] && z[|z| - 1].pos + z[|z| - 1].length == i
      invariant !run ==> (i > 0 ==> o[i - 1] != 0) && forall k :: 0 <= k < |z| ==> z[k].pos + z[k].length < i
    {
      ghost var was := z;
      if o[i] == 0 {
        if !run {
          run := true;
          z := z + [Run(1, i)];
          NewRun(o, was, i);
        } else {
          z := z[|z| - 1 := Run(z[|z| - 1].length + 1, z[|z| - 1].pos)];
          LongerRun(o, was, i);
        }
      } else {
        run := false;
        SameRuns(o, z, i);
      }
    }
  }

  lemma NewRun(o: seq<Group>, z: seq<Run>, i: nat)
    requires i < |o| && Runs(o, z, i) && o[i] == 0
    requires forall k :: 0 <= k < |z| ==> z[k].pos + z[k].length < i
    ensures Runs(o, z + [Run(1, i)], i + 1)
  {
    var z' := z + [Run(1, i)];
    forall k | 0 <= k < |z|
      ensures RunOk(o, z'[k], i + 1)
    {
      assert RunOk(o, z[k], i);
    }
    forall j | 0 <= j < i + 1 && o[j] == 0
      ensures Covered(z', j)
    {
      if j < i {
        assert Covered(z, j);
        var k :| 0 <= k < |z| && z[k].pos <= j < z[k].pos + z[k].length;
        assert z'[k] == z[k];
      } else {
        assert z'[|z|] == Run(1, i);
      }
    }
  }

  lemma LongerRun(o: seq<Group>, z: seq<Run>, i: nat)
    requires i < |o| && Runs(o, z, i) && o[i] == 0 && z != [] && z[|z| - 1].pos + z[|z| - 1].length == i
    ensures Runs(o, z[|z| - 1 := Run(z[|z| - 1].length + 1, z[|z| - 1].pos)], i + 1)
  {
    var last := |z| - 1;
    var z' := z[last := Run(z[last].length + 1, z[last].pos)];
    forall k | 0 <= k < |z'|
      ensures RunOk(o, z'[k], i + 1)
    {
      assert RunOk(o, z[k], i);
      if k < last { assert z[k].pos + z[k].length < z[last].pos; }
    }
    hide RunOk;
    forall j | 0 <= j < i + 1 && o[j] == 0
      ensures Covered(z', j)
    {
      if j < i {
        assert Covered(z, j);
        var k :| 0 <= k < |z| && z[k].pos <= j < z[k].pos + z[k].length;
        assert z'[k].pos <= j < z'[k].pos + z'[k].length;
      } else {
        assert z'[last].pos <= j < z'[last].pos + z'[last].length;
      }
    }
  }

  lemma SameRuns(o: seq<Group>, z: seq<Run>, i: nat)
    requires i < |o| && Runs(o, z, i) && o[i] != 0
    ensures Runs(o, z, i + 1)
  {
    forall k | 0 <= k < |z|
      ensures RunOk(o, z[k], i + 1)
    {
      assert RunOk(o, z[k], i);
    }
  }

  lemma NoRuns(o: seq<Group>, z: seq<Run>, i: nat)
    requires Runs(o, z, |o|) && z == [] && i < |o|
    ensures RunAt(o, i) == 0
  {
    assert !Covered(z, i);
  }

  /** `max([length ...])`, then the least position of a run of that length. */
  method Longest(z: seq<Run>) returns (best: Run)
    requires z != []
    requires forall j, k :: 0 <= j < k < |z| ==> z[j].pos < z[k].pos
    ensures best in z && forall k :: 0 <= k < |z| ==>
              z[k].length <= best.length && (z[k].length == best.length ==> best.pos <= z[k].pos)
  {
    best := z[0];
    for i := 1 to |z|
      invariant best in z[..i] && forall k :: 0 <= k < i ==>
                  z[k].length <= best.length && (z[k].length == best.length ==> best.pos <= z[k].pos)
    {
      if z[i].length > best.length {
        best := z[i];
      }
    }
  }

  /** The longest run in the list is the longest run there is, and the first of its length. */
  lemma LongestIsBest(o: seq<Group>, z: seq<Run>, best: Run)
    requires o != [] && Runs(o, z, |o|) && best in z
    requires forall k :: 0 <= k < |z| ==>
               z[k].length <= best.length && (z[k].length == best.length ==> best.pos <= z[k].pos)
    ensures best.pos == BestStart(o, |o|) && best.length == RunAt(o, best.pos)
  {
    var b :| 0 <= b < |z| && z[b] == best;
    ListedRun(o, z, b);
    var p := BestStart(o, |o|);
    hide Runs, RunAt, BestStart;
    assert RunAt(o, p) >= RunAt(o, best.pos) >= 1;
    assert o[p] == 0;
    var k := RunWith(o, z, p);
    ListedRun(o, z, k);
    RunShift(o, z[k].pos, p);
  }

  lemma ListedRun(o: seq<Group>, z: seq<Run>, k: nat)
    requires k < |z| && Runs(o, z, |o|)
    ensures z[k].pos < |o| && RunAt(o, z[k].pos) == z[k].length >= 1
  {
    assert RunOk(o, z[k], |o|);
    MaximalRun(o, z[k].pos, z[k].length);
  }

  lemma RunWith(o: seq<Group>, z: seq<Run>, i: nat) returns (k: nat)
    requires Runs(o, z, |o|) && i < |o| && o[i] == 0
    ensures k < |z| && z[k].pos <= i < z[k].pos + z[k].length
  {
    assert Covered(z, i);
    k :| 0 <= k < |z| && z[k].pos <= i < z[k].pos + z[k].length;
  }

  lemma {:induction false} MaximalRun(o: seq<Group>, i: nat, n: nat)
    requires ZeroRun(o, i, n) && (i + n < |o| ==> o[i + n] != 0)
    ensures RunAt(o, i) == n
    decreases n
  {
    if n > 0 { MaximalRun(o, i + 1, n - 1); }
  }

  lemma {:induction false} RunShift(o: seq<Group>, i: nat, j: nat)
    requires i <= j <= |o| && j < i + RunAt(o, i)
    ensures RunAt(o, j) == RunAt(o, i) - (j - i)
    decreases j - i
  {
    if i < j { RunShift(o, i + 1, j); }
  }

  // ----- printing

  /** `is_ipv4_mapped`, that is, in ::ffff:0:0/96. */
  predicate IsMapped(a: Address) {
    a[..6] == [0, 0, 0, 0, 0, 0xffff]
  }

  datatype Format = Format(zeroDrop: bool, sectionDrop: bool, ipv4: Option<bool>)

  predicate ShowsIpv4(f: Format, a: Address) {
    match f.ipv4 case None => IsMapped(a) case Some(b) => b
  }

  /** The groups that are formatted; ones stand for the part written as an IPv4 address. */
  function Shown(f: Format, a: Address): (o: Address) {
    if ShowsIpv4(f, a) then a[..6] + [1, 1] else a
  }

  function Word(f: Format, g: Group): (w: string)
    ensures IsWord(w, ':') && '.' !in w && Value(w, 16) == Some(g)
  {
    ValueOfNumeral(g, 16);
    ValueOfPadded(g);
    var w := if f.zeroDrop then Numeral(g, 16) else Padded(g);
    NoSeparator(w);
    w
  }

  lemma NoSeparator(w: string)
    requires forall c :: c in w ==> c in DIGITS
    ensures ':' !in w && '.' !in w
  {
    forall c | c in DIGITS
      ensures c != ':' && c != '.'
    {
    }
  }

  function Words(f: Format, o: seq<Group>): (ws: seq<string>)
    ensures |ws| == |o| && forall i :: 0 <= i < |o| ==> ws[i] == Word(f, o[i])
  {
    seq(|o|, i requires 0 <= i < |o| => Word(f, o[i]))
  }

  /** `str(IPAddr(raw[-4:]))` */
  function Quad(x: Group, y: Group): string {
    Joined([Numeral(x / 256, 10), Numeral(x % 256, 10), Numeral(y / 256, 10), Numeral(y % 256, 10)], '.')
  }

  /** Groups with the ones from pos to end left out. */
  function Elided(f: Format, o: seq<Group>, pos: nat, end: nat): string
    requires pos <= end <= |o|
  {
    Joined(Words(f, o[..pos]), ':') + "::" + Joined(Words(f, o[end..]), ':')
  }

  /** The groups as text, with the first longest run of at least two zeros left out. */
  function Grouped(f: Format, o: Address): string {
    var p := BestStart(o, 8);
    if f.sectionDrop && RunAt(o, p) > 1 then Elided(f, o, p, p + RunAt(o, p)) else Joined(Words(f, o), ':')
  }

  /** `s.rsplit(':', 2)[0]` */
  function WithoutLastTwo(s: string): string {
    if ':' !in s then s
    else
      var t := BeforeLast(s, ':');
      if ':' !in t then t else BeforeLast(t, ':')
  }

  /** `to_str` */
  function ToText(f: Format, a: Address): string {
    var s := Grouped(f, Shown(f, a));
    if ShowsIpv4(f, a) then WithoutLastTwo(s) + ":" + Quad(a[6], a[7]) else s
  }

  /** The search for the run to leave out: none is a run of length 0. */
  method SearchRun(o: Address) returns (best: Run)
    ensures best.length > 1 <==> RunAt(o, BestStart(o, 8)) > 1
    ensures best.length > 1 ==> best.pos == BestStart(o, 8) && best.length == RunAt(o, best.pos)
  {
    best := Run(0, 0);
    var z := ZeroRuns(o);
    if z != [] {
      hide RunAt, BestStart;
      best := Longest(z);
      LongestIsBest(o, z, best);
    } else {
      NoRuns(o, z, BestStart(o, 8));
    }
  }

  method ToStr(f: Format, a: Address) returns (s: string)
    ensures s == ToText(f, a)
  {
    hide RunAt, BestStart, Joined, Words, WithoutLastTwo, Quad;
    var o := Shown(f, a);
    var best := Run(0, 0);
    if f.sectionDrop {
      best := SearchRun(o);
    }
    if best.length > 1 {
      s := Elided(f, o, best.pos, best.pos + best.length);
    } else {
      s := Joined(Words(f, o), ':');
    }
    if ShowsIpv4(f, a) {
      s := WithoutLastTwo(s) + ":" + Quad(a[6], a[7]);
    }
  }

  /** What is left out is the leftmost of the longest runs of zeros, and at least two groups long. */
  lemma ElidesLeftmostLongest(f: Format, o: Address, i: nat, n: nat)
    requires ZeroRun(o, i, n) && n >= 1
    ensures var p := BestStart(o, 8);
            var len := RunAt(o, p);
            && ZeroRun(o, p, len) && n <= len && (n == len ==> p <= i)
            && (f.sectionDrop && n >= 2 ==> Grouped(f, o) == Elided(f, o, p, p + len))
            && (!f.sectionDrop || len == 1 ==> Grouped(f, o) == Joined(Words(f, o), ':'))
  {
    RunIsLongest(o, i, n);
  }

  // ----- parsing

  type Sides = Option<(seq<Group>, seq<Group>)>

  /** More groups in front of both sides. */
  function InFront(l: seq<Group>, r: seq<Group>, c: Sides): (d: Sides)
  {
    match c case None => None case Some((l', r')) => Some((l + l', r + r'))
  }

  lemma InFrontTwice(l1: seq<Group>, r1: seq<Group>, l2: seq<Group>, r2: seq<Group>, c: Sides)
    ensures InFront(l1, r1, InFront(l2, r2, c)) == InFront(l1 + l2, r1 + r2, c)
  {
    if c.Some? {
      assert l1 + (l2 + c.value.0) == (l1 + l2) + c.value.0;
      assert r1 + (r2 + c.value.1) == (r1 + r2) + c.value.1;
    }
  }

  lemma InFrontNothing(c: Sides)
    ensures InFront([], [], c) == c
  {
    if c.Some? {
      assert [] + c.value.0 == c.value.0 && [] + c.value.1 == c.value.1;
    }
  }

  /** The loop over the segments: groups before the first empty segment, and groups after it. */
  function Collect(segs: seq<string>, onRight: bool): (r: Sides)
    ensures r.Some? ==> |r.value.0| + |r.value.1| <= |segs| && (onRight ==> r.value.0 == [])
  {
    if segs == [] then Some(([], []))
    else if segs[0] == "" then Collect(segs[1..], true)
    else match Value(segs[0], 16)
      case None => None
      case Some(n) =>
        if n > 0xffff then None
        else if onRight then InFront([], [n], Collect(segs[1..], true))
        else InFront([n], [], Collect(segs[1..], false))
  }

  function Zeros(n: nat): (z: seq<Group>)
    ensures |z| == n && forall i :: 0 <= i < n ==> z[i] == 0
  {
    seq(n, _ => 0)
  }

  /** The groups of a text without dots; None is an exception. */
  function ParseGroups(s: string): Option<Address> {
    var segs := Pieces(s, ':');
    if CountPairs(s, ':') > 1 || |segs| < 3 || |segs| > 8 then None
    else match Collect(segs, false)
      case None => None
      case Some((l, r)) => Some(l + Zeros(8 - |l| - |r|) + r)
  }

  /** `inet_aton` of a dotted quad in its usual form. */
  function ParseQuad(s: string): Option<(Group, Group)> {
    var ps := Pieces(s, '.');
    if |ps| != 4 || exists i :: 0 <= i < 4 && !Octet(ps[i]) then None
    else
      var a, b, c, d := Value(ps[0], 10).value, Value(ps[1], 10).value, Value(ps[2], 10).value, Value(ps[3], 10).value;
      Some((a * 256 + b, c * 256 + d))
  }

  /** A decimal number below 256. */
  predicate Octet(s: string) {
    var v := Value(s, 10);
    v.Some? && v.value < 256
  }

  /** The constructor of `IPAddr6` on text. */
  function Parse(s: string): Option<Address> {
    if '.' !in s then ParseGroups(s)
    else if ':' !in s then None
    else
      var head, quad := BeforeLast(s, ':'), AfterLast(s, ':');
      if '.' in head then None
      else match (ParseGroups(head + ":0:0"), ParseQuad(quad))
        case (Some(o), Some((x, y))) => Some(o[..6] + [x, y])
        case _ => None
  }

  /** The loop of the constructor: `side` tells which of the two lists a group goes to. */
  method CollectSides(segs: seq<string>) returns (r: Sides)
    ensures r == Collect(segs, false)
  {
    var left: seq<Group>, right: seq<Group>, side := [], [], false;
    assert segs[0..] == segs;
    InFrontNothing(Collect(segs, false));
    for i := 0 to |segs|
      invariant !side ==> right == []
      invariant Collect(segs, false) == InFront(left, right, Collect(segs[i..], side))
    {
      var s := segs[i];
      assert segs[i..][0] == s && segs[i..][1..] == segs[i + 1..];
      if s == "" {
        side := true;
      } else {
        var v := Value(s, 16);
        if v.None? || v.value > 0xffff {
          return None;
        }
        ghost var rest := Collect(segs[i + 1..], side);
        if side {
          InFrontTwice(left, right, [], [v.value], rest);
          assert left + [] == left;
          right := right + [v.value];
        } else {
          InFrontTwice(left, right, [v.value], [], rest);
          assert right + [] == right;
          left := left + [v.value];
        }
      }
    }
    assert segs[|segs|..] == [] && left + [] == left && right + [] == right;
    return Some((left, right));
  }

  /** A segment that the loop takes for a group. */
  predicate IsGroup(w: string) {
    Value(w, 16).Some? && Value(w, 16).value <= 0xffff
  }

  lemma {:induction false} CollectAccepts(segs: seq<string>, onRight: bool)
    ensures Collect(segs, onRight).Some? <==> forall i :: 0 <= i < |segs| ==> segs[i] == "" || IsGroup(segs[i])
  {
    if segs != [] {
      CollectAccepts(segs[1..], true);
      CollectAccepts(segs[1..], onRight);
      assert forall i :: 0 < i < |segs| ==> segs[i] == segs[1..][i - 1];
    }
  }

  /**
   What a text without dots must be: at most one double colon, three to eight segments, and a
   group in each that is not empty.
   */
  lemma Accepted(s: string)
    ensures ParseGroups(s).Some? <==>
            && CountPairs(s, ':') <= 1 && 3 <= |Pieces(s, ':')| <= 8
            && forall i :: 0 <= i < |Pieces(s, ':')| ==> Pieces(s, ':')[i] == "" || IsGroup(Pieces(s, ':')[i])
  {
    CollectAccepts(Pieces(s, ':'), false);
    hide Collect, Pieces, CountPairs, IsGroup;
  }

  lemma {:induction false} CollectPlain(segs: seq<string>)
    requires forall i :: 0 <= i < |segs| ==> segs[i] != "" && IsGroup(segs[i])
    ensures Collect(segs, false).Some? && Collect(segs, false).value.1 == []
    ensures var gs := Collect(segs, false).value.0;
            |gs| == |segs| && forall i :: 0 <= i < |segs| ==> Value(segs[i], 16) == Some(gs[i])
  {
    if segs != [] {
      assert IsGroup(segs[0]);
      CollectPlain(segs[1..]);
    }
  }

  /**
   A text without an empty segment, and so without a double colon, is accepted exactly with three
   to eight groups; groups that it lacks are zeros on the right.
   */
  lemma PlainText(s: string)
    requires forall i :: 0 <= i < |Pieces(s, ':')| ==> Pieces(s, ':')[i] != ""
    ensures var ps, o := Pieces(s, ':'), ParseGroups(s);
            && (o.Some? <==> 3 <= |ps| <= 8 && forall i :: 0 <= i < |ps| ==> IsGroup(ps[i]))
            && (o.Some? ==>
                  && (forall i :: 0 <= i < |ps| ==> Value(ps[i], 16) == Some(o.value[i]))
                  && forall i :: |ps| <= i < 8 ==> o.value[i] == 0)
  {
    var ps := Pieces(s, ':');
    JoinedPieces(s, ':');
    CountAfterJoined(ps, "", ':');
    assert s + "" == s;
    assert CountPairs("", ':') == 0;
    Accepted(s);
    if ParseGroups(s).Some? {
      assert forall i :: 0 <= i < |ps| ==> IsGroup(ps[i]);
      CollectPlain(ps);
    }
    hide Collect, Pieces, CountPairs, IsGroup, Joined;
  }

  /** Three groups are enough: the other five are taken for zeros. */
  lemma ThreeGroups()
    ensures Parse("1:2:3") == Some([1, 2, 3, 0, 0, 0, 0, 0])
  {
    hide Pieces, Collect, CountPairs;
    ThreePieces();
    ThreeValues();
    hide Value;
    PlainText("1:2:3");
    hide ParseGroups, IsGroup;
    assert ParseGroups("1:2:3").value == [1, 2, 3, 0, 0, 0, 0, 0];
  }

  lemma ThreeValues()
    ensures Value("1", 16) == Some(1) && Value("2", 16) == Some(2) && Value("3", 16) == Some(3)
  {
  }

  lemma ThreePieces()
    ensures Pieces("1:2:3", ':') == ["1", "2", "3"]
  {
    var ws := ["1", "2", "3"];
    assert AllWords(ws, ':');
    PiecesJoined(ws, ':');
    assert ws[1..] == ["2", "3"] && ws[1..][1..] == ["3"];
    assert Joined(["3"], ':') == "3";
    assert Joined(["2", "3"], ':') == "2:3" by { assert ["2", "3"][1..] == ["3"]; }
    assert Joined(ws, ':') == "1:2:3";
  }

  method ReadGroups(s: string) returns (r: Option<Address>)
    ensures r == ParseGroups(s)
  {
    var segs := Pieces(s, ':');
    if CountPairs(s, ':') > 1 || |segs| < 3 || |segs| > 8 {
      return None;
    }
    var p := CollectSides(segs);
    if p.None? {
      return None;
    }
    var l, r' := p.value.0, p.value.1;
    r := Some(l + Zeros(8 - |l| - |r'|) + r');
  }

  /** The constructor, step by step. */
  method Construct(s: string) returns (r: Option<Address>)
    ensures r == Parse(s)
  {
    hide ParseGroups, ParseQuad;
    if '.' !in s {
      r := ReadGroups(s);
      return;
    }
    if ':' !in s {
      return None;
    }
    var head, quad := BeforeLast(s, ':'), AfterLast(s, ':');
    if '.' in head {
      return None;
    }
    r := ReadGroups(head + ":0:0");
    var q := ParseQuad(quad);
    if r.Some? {
      r := if q.Some? then Some(r.value[..6] + [q.value.0, q.value.1]) else None;
    }
  }

  // ----- the round trip

  /** Words that read as these groups. */
  predicate Reads(ws: seq<string>, gs: seq<Group>) {
    |ws| == |gs| && forall i :: 0 <= i < |ws| ==> IsWord(ws[i], ':') && Value(ws[i], 16) == Some(gs[i])
  }

  lemma {:induction false} CollectWords(ws: seq<string>, gs: seq<Group>, rest: seq<string>, onRight: bool)
    requires Reads(ws, gs)
    ensures Collect(ws + rest, onRight) ==
            if onRight then InFront([], gs, Collect(rest, true)) else InFront(gs, [], Collect(rest, false))
  {
    if ws == [] {
      assert ws + rest == rest && gs == [];
      InFrontNothing(Collect(rest, onRight));
    } else {
      assert IsWord(ws[0], ':') && Value(ws[0], 16) == Some(gs[0]);
      CollectWords(ws[1..], gs[1..], rest, onRight);
      assert (ws + rest)[1..] == ws[1..] + rest && (ws + rest)[0] == ws[0];
      assert gs == [gs[0]] + gs[1..];
      hide InFront;
      var c := Collect(rest, onRight);
      InFrontTwice([], [gs[0]], [], gs[1..], c);
      InFrontTwice([gs[0]], [], gs[1..], [], c);
    }
  }

  lemma AllGroups(ws: seq<string>, gs: seq<Group>)
    requires Reads(ws, gs) && |gs| == 8
    ensures ParseGroups(Joined(ws, ':')) == Some(gs)
  {
    var s := Joined(ws, ':');
    PiecesJoined(ws, ':');
    CountAfterJoined(ws, "", ':');
    assert s + "" == s && ws + [] == ws;
    CollectWords(ws, gs, [], false);
    assert gs + [] == gs && gs + Zeros(0) + [] == gs;
    hide Joined, Pieces, CountPairs, Collect, Reads;
  }

  function OrEmpty(ws: seq<string>): seq<string> {
    if ws == [] then [""] else ws
  }

  lemma ElidedPieces(ws1: seq<string>, ws2: seq<string>)
    requires AllWords(ws1, ':') && AllWords(ws2, ':')
    ensures var s := Joined(ws1, ':') + "::" + Joined(ws2, ':');
            Pieces(s, ':') == OrEmpty(ws1) + ([""] + OrEmpty(ws2)) && CountPairs(s, ':') == 1
  {
    var l, r := Joined(ws1, ':'), Joined(ws2, ':');
    PiecesJoined(ws1, ':');
    PiecesJoined(ws2, ':');
    CountAfterJoined(ws1, "::" + r, ':');
    CountAfterJoined(ws2, "", ':');
    hide Joined, Pieces, CountPairs, AllWords;
    assert l + "::" + r == l + ("::" + r) && r + "" == r;
    ElisionPieces(l, r);
    ElisionCount(r);
  }

  lemma ElisionPieces(l: string, r: string)
    ensures Pieces(l + "::" + r, ':') == Pieces(l, ':') + ([""] + Pieces(r, ':'))
  {
    PiecesConcat(l, "" + [':'] + r, ':');
    PiecesConcat("", r, ':');
    assert l + "::" + r == l + [':'] + ("" + [':'] + r);
    assert Pieces("", ':') == [""];
    hide Pieces;
  }

  lemma ElisionCount(r: string)
    ensures CountPairs("::" + r, ':') == 1 + CountPairs(r, ':') && CountPairs("", ':') == 0
  {
    assert ("::" + r)[2..] == r;
  }

  /** The segments of an elided text: one side, an empty segment, the other side. */
  lemma CollectElided(ws1: seq<string>, gs1: seq<Group>, ws2: seq<string>, gs2: seq<Group>)
    requires Reads(ws1, gs1) && Reads(ws2, gs2)
    ensures Collect(OrEmpty(ws1) + ([""] + OrEmpty(ws2)), false) == Some((gs1, gs2))
  {
    var tail := [""] + OrEmpty(ws2);
    assert tail[1..] == OrEmpty(ws2);
    if ws2 == [] {
      assert [""][1..] == [] && gs2 == [];
    } else {
      CollectWords(ws2, gs2, [], true);
      assert ws2 + [] == ws2 && gs2 + [] == gs2;
    }
    assert Collect(tail, true) == Collect(tail, false) == Some(([], gs2));
    if ws1 == [] {
      assert ([""] + tail)[1..] == tail && gs1 == [];
    } else {
      CollectWords(ws1, gs1, tail, false);
      assert gs1 + [] == gs1 && [] + gs2 == gs2;
    }
  }

  lemma ElidedGroups(ws1: seq<string>, gs1: seq<Group>, ws2: seq<string>, gs2: seq<Group>)
    requires Reads(ws1, gs1) && Reads(ws2, gs2) && |gs1| + |gs2| <= 6
    ensures ParseGroups(Joined(ws1, ':') + "::" + Joined(ws2, ':')) == Some(gs1 + Zeros(8 - |gs1| - |gs2|) + gs2)
  {
    hide Joined, Pieces, Collect, CountPairs, Zeros, Reads, OrEmpty;
    ReadsWords(ws1, gs1);
    ReadsWords(ws2, gs2);
    SegmentCount(ws1, ws2);
    ElidedPieces(ws1, ws2);
    CollectElided(ws1, gs1, ws2, gs2);
  }

  lemma ReadsWords(ws: seq<string>, gs: seq<Group>)
    requires Reads(ws, gs)
    ensures |ws| == |gs| && AllWords(ws, ':')
  {
  }

  lemma SegmentCount(ws1: seq<string>, ws2: seq<string>)
    requires |ws1| + |ws2| <= 6
    ensures 3 <= |OrEmpty(ws1) + ([""] + OrEmpty(ws2))| <= 8
  {
  }

  lemma WordsRead(f: Format, o: seq<Group>)
    ensures Reads(Words(f, o), o)
  {
    assert forall i :: 0 <= i < |o| ==> Words(f, o)[i] == Word(f, o[i]);
  }

  lemma Rejoin(o: seq<Group>, p: nat, end: nat)
    requires p <= end <= |o| && ZeroRun(o, p, end - p)
    ensures o[..p] + Zeros(end - p) + o[end..] == o && o[p..end] == Zeros(end - p)
  {
  }

  lemma ElidedBack(f: Format, o: Address, p: nat, end: nat)
    requires p + 2 <= end <= 8 && ZeroRun(o, p, end - p)
    ensures ParseGroups(Elided(f, o, p, end)) == Some(o)
  {
    hide ParseGroups, Joined, Reads, Words;
    WordsRead(f, o[..p]);
    WordsRead(f, o[end..]);
    ElidedGroups(Words(f, o[..p]), o[..p], Words(f, o[end..]), o[end..]);
    Rejoin(o, p, end);
  }

  /** An address printed without an IPv4 part is read back. */
  lemma GroupsBack(f: Format, o: Address)
    ensures ParseGroups(Grouped(f, o)) == Some(o)
  {
    hide ParseGroups, Joined, Reads, Words, Elided, RunAt, BestStart;
    var p := BestStart(o, 8);
    if f.sectionDrop && RunAt(o, p) > 1 {
      ElidedBack(f, o, p, p + RunAt(o, p));
    } else {
      WordsRead(f, o);
      AllGroups(Words(f, o), o);
    }
  }

  predicate NoDots(ws: seq<string>) {
    forall i :: 0 <= i < |ws| ==> '.' !in ws[i]
  }

  lemma {:induction false} NoDotsJoined(ws: seq<string>)
    requires NoDots(ws)
    ensures '.' !in Joined(ws, ':')
  {
    if |ws| > 1 { NoDotsJoined(ws[1..]); }
  }

  lemma LastTwo(lead: string, u: string, v: string)
    requires ':' !in u && ':' !in v
    ensures WithoutLastTwo(lead + ":" + u + ":" + v) == lead
  {
    LastSplit(lead + ":" + u, v, ':');
    LastSplit(lead, u, ':');
  }

  /** A text of groups is some lead and the last two groups; the rest of it reads with any two. */
  lemma AllLead(ws: seq<string>, u: string, v: string)
    requires ws != []
    ensures Joined(ws + [u, v], ':') == Joined(ws, ':') + ":" + u + ":" + v
  {
    JoinedConcat(ws, [u, v], ':');
    JoinedConcat([u], [v], ':');
    assert [u] + [v] == [u, v];
  }

  function ElidedLead(ws1: seq<string>, ws2: seq<string>): string {
    if ws2 == [] then Joined(ws1, ':') + ":" else Joined(ws1, ':') + "::" + Joined(ws2, ':')
  }

  lemma ElidedLeadText(ws1: seq<string>, ws2: seq<string>, u: string, v: string)
    ensures Joined(ws1, ':') + "::" + Joined(ws2 + [u, v], ':') == ElidedLead(ws1, ws2) + ":" + u + ":" + v
  {
    var l := Joined(ws1, ':');
    if ws2 == [] {
      JoinedConcat([u], [v], ':');
      assert [u] + [v] == [u, v] && ws2 + [u, v] == [u, v];
      assert Joined([u], ':') == u && Joined([v], ':') == v;
      hide Joined;
      assert l + "::" + (u + [':'] + v) == (l + ":") + ":" + u + ":" + v;
    } else {
      AllLead(ws2, u, v);
      hide Joined;
      var r := Joined(ws2, ':');
      assert l + "::" + (r + ":" + u + ":" + v) == (l + "::" + r) + ":" + u + ":" + v;
    }
  }

  lemma ZeroWord()
    ensures IsWord("0", ':') && Value("0", 16) == Some(0)
  {
    assert "0"[0] == '0';
  }

  lemma ReadsMore(ws: seq<string>, gs: seq<Group>)
    requires Reads(ws, gs)
    ensures Reads(ws + ["0", "0"], gs + [0, 0])
  {
    ZeroWord();
  }

  lemma WordsConcat(f: Format, a: seq<Group>, b: seq<Group>)
    ensures Words(f, a + b) == Words(f, a) + Words(f, b)
  {
  }

  lemma TwoWords(f: Format)
    ensures Words(f, [1, 1]) == [Word(f, 1), Word(f, 1)]
  {
    assert [1, 1] == [1 as Group, 1 as Group];
  }

  lemma WordsNoDots(f: Format, o: seq<Group>)
    ensures NoDots(Words(f, o))
  {
  }

  /** What stands before the IPv4 part, and how it reads with two zero groups instead. */
  lemma Lead(f: Format, a: Address) returns (lead: string)
    requires ShowsIpv4(f, a)
    ensures WithoutLastTwo(Grouped(f, Shown(f, a))) == lead && '.' !in lead
    ensures ParseGroups(lead + ":0:0") == Some(a[..6] + [0, 0])
  {
    var o := Shown(f, a);
    var p := BestStart(o, 8);
    var end := p + RunAt(o, p);
    hide Words, ParseGroups, Joined, WithoutLastTwo, BestStart, RunAt, ElidedLead;
    if f.sectionDrop && RunAt(o, p) > 1 {
      lead := LeadElided(f, a, o, p, end);
    } else {
      lead := LeadAll(f, a, o);
    }
  }

  lemma LeadElided(f: Format, a: Address, o: Address, p: nat, end: nat) returns (lead: string)
    requires o == a[..6] + [1, 1] && p + 2 <= end <= 8 && ZeroRun(o, p, end - p)
    ensures WithoutLastTwo(Elided(f, o, p, end)) == lead && '.' !in lead
    ensures ParseGroups(lead + ":0:0") == Some(a[..6] + [0, 0])
  {
    hide Words, ParseGroups, Joined, WithoutLastTwo, ElidedLead, Reads, NoDots, Word, ZeroRun;
    Slices(a, o, p, end);
    var ws1, ws2 := Words(f, a[..p]), Words(f, a[end..6]);
    lead := ElidedLead(ws1, ws2);
    WordsConcat(f, a[end..6], [1, 1]);
    TwoWords(f);
    WordsRead(f, a[..p]);
    WordsRead(f, a[end..6]);
    WordsNoDots(f, a[..p]);
    WordsNoDots(f, a[end..6]);
    LeadOfElided(f, a, p, end, ws1, ws2, Word(f, 1));
  }

  lemma Slices(a: Address, o: Address, p: nat, end: nat)
    requires o == a[..6] + [1, 1] && p < end <= 8 && ZeroRun(o, p, end - p)
    ensures end <= 6 && o[..p] == a[..p] && o[end..] == a[end..6] + [1, 1]
    ensures a[..p] + Zeros(end - p) + (a[end..6] + [0, 0]) == a[..6] + [0, 0]
  {
    assert o[6] == 1 && o[7] == 1 && forall i :: 0 <= i < 6 ==> o[i] == a[i];
    assert end <= 6;
    assert a[p..end] == Zeros(end - p);
    assert a[..6] == a[..p] + a[p..end] + a[end..6];
  }

  lemma LeadAll(f: Format, a: Address, o: Address) returns (lead: string)
    requires o == a[..6] + [1, 1]
    ensures WithoutLastTwo(Joined(Words(f, o), ':')) == lead && '.' !in lead
    ensures ParseGroups(lead + ":0:0") == Some(a[..6] + [0, 0])
  {
    hide Words, ParseGroups, Joined, WithoutLastTwo, Reads, NoDots, Word;
    var ws := Words(f, a[..6]);
    lead := Joined(ws, ':');
    WordsConcat(f, a[..6], [1, 1]);
    TwoWords(f);
    WordsRead(f, a[..6]);
    WordsNoDots(f, a[..6]);
    LeadOfAll(ws, a[..6], Word(f, 1));
  }

  lemma LeadOfElided(f: Format, a: Address, p: nat, end: nat, ws1: seq<string>, ws2: seq<string>, w: string)
    requires p <= end <= 6 && end - p >= 2 && Reads(ws1, a[..p]) && Reads(ws2, a[end..6]) && ':' !in w
    requires NoDots(ws1) && NoDots(ws2)
    ensures var lead := ElidedLead(ws1, ws2);
            && WithoutLastTwo(Joined(ws1, ':') + "::" + Joined(ws2 + [w, w], ':')) == lead && '.' !in lead
            && ParseGroups(lead + ":0:0") == Some(a[..p] + Zeros(end - p) + (a[end..6] + [0, 0]))
  {
    hide *;
    var lead := ElidedLead(ws1, ws2);
    LeadNoDots(ws1, ws2);
    ElidedLeadText(ws1, ws2, w, w);
    LastTwo(lead, w, w);
    ElidedLeadText(ws1, ws2, "0", "0");
    ReadsMore(ws2, a[end..6]);
    ElidedGroups(ws1, a[..p], ws2 + ["0", "0"], a[end..6] + [0, 0]);
    TwoZeros(lead);
    assert 8 - |a[..p]| - |a[end..6] + [0, 0]| == end - p;
  }

  lemma LeadNoDots(ws1: seq<string>, ws2: seq<string>)
    requires NoDots(ws1) && NoDots(ws2)
    ensures '.' !in ElidedLead(ws1, ws2)
  {
    NoDotsJoined(ws1);
    NoDotsJoined(ws2);
    hide Joined;
  }

  lemma TwoZeros(lead: string)
    ensures lead + ":" + "0" + ":" + "0" == lead + ":0:0"
  {
  }

  lemma LeadOfAll(ws: seq<string>, gs: seq<Group>, w: string)
    requires |gs| == 6 && Reads(ws, gs) && ':' !in w && NoDots(ws)
    ensures var lead := Joined(ws, ':');
            && WithoutLastTwo(Joined(ws + [w, w], ':')) == lead && '.' !in lead
            && ParseGroups(lead + ":0:0") == Some(gs + [0, 0])
  {
    var lead := Joined(ws, ':');
    NoDotsJoined(ws);
    AllLead(ws, w, w);
    LastTwo(lead, w, w);
    AllLead(ws, "0", "0");
    ReadsMore(ws, gs);
    AllGroups(ws + ["0", "0"], gs + [0, 0]);
    hide ParseGroups, Joined, WithoutLastTwo, Reads;
    assert lead + ":" + "0" + ":" + "0" == lead + ":0:0";
  }

  lemma OctetBack(n: nat)
    requires n < 256
    ensures var w := Numeral(n, 10); Value(w, 10) == Some(n) && Octet(w) && IsWord(w, '.') && ':' !in w
  {
    ValueOfNumeral(n, 10);
    NoSeparator(Numeral(n, 10));
  }

  lemma QuadOf(ws: seq<string>, ds: seq<nat>)
    requires |ws| == |ds| == 4
    requires forall i :: 0 <= i < 4 ==> ds[i] < 256 && Value(ws[i], 10) == Some(ds[i]) && IsWord(ws[i], '.')
    ensures ParseQuad(Joined(ws, '.')) == Some((ds[0] * 256 + ds[1], ds[2] * 256 + ds[3]))
  {
    hide Value, Joined, Pieces;
    PiecesJoined(ws, '.');
    assert forall i :: 0 <= i < 4 ==> Octet(ws[i]);
  }

  lemma QuadBack(x: Group, y: Group)
    ensures ParseQuad(Quad(x, y)) == Some((x, y)) && ':' !in Quad(x, y) && '.' in Quad(x, y)
  {
    hide Numeral, Value, Octet, Joined, Pieces, ParseQuad;
    var ds: seq<nat> := [x / 256, x % 256, y / 256, y % 256];
    var ws := [Numeral(ds[0], 10), Numeral(ds[1], 10), Numeral(ds[2], 10), Numeral(ds[3], 10)];
    forall i | 0 <= i < 4
      ensures Value(ws[i], 10) == Some(ds[i]) && IsWord(ws[i], '.') && ':' !in ws[i]
    {
      OctetBack(ds[i]);
    }
    QuadOf(ws, ds);
    QuadChars(ws);
  }

  lemma QuadChars(ws: seq<string>)
    requires |ws| == 4 && forall i :: 0 <= i < 4 ==> ':' !in ws[i]
    ensures ':' !in Joined(ws, '.') && '.' in Joined(ws, '.')
  {
    assert Joined(ws, '.') == ws[0] + "." + Joined(ws[1..], '.');
    assert Joined(ws[1..], '.') == ws[1] + "." + Joined(ws[2..], '.');
    assert Joined(ws[2..], '.') == ws[2] + "." + ws[3];
    hide Joined;
    assert (ws[0] + "." + Joined(ws[1..], '.'))[|ws[0]|] == '.';
  }

  lemma Ipv4Back(a: Address, lead: string)
    requires '.' !in lead && ParseGroups(lead + ":0:0") == Some(a[..6] + [0, 0])
    ensures Parse(lead + ":" + Quad(a[6], a[7])) == Some(a)
  {
    var quad := Quad(a[6], a[7]);
    QuadBack(a[6], a[7]);
    LastSplit(lead, quad, ':');
    hide ParseGroups, ParseQuad, Quad, BeforeLast, AfterLast;
    var s := lead + ":" + quad;
    assert s == lead + [':'] + quad && '.' in s;
    assert (a[..6] + [0, 0])[..6] + [a[6], a[7]] == a;
  }

  /** The text of an address, in every format, is read back as that address. */
  lemma RoundTrip(f: Format, a: Address)
    ensures Parse(ToText(f, a)) == Some(a)
  {
    hide ParseGroups, Grouped, Quad, WithoutLastTwo, ShowsIpv4;
    if ShowsIpv4(f, a) {
      hide Parse;
      var lead := Lead(f, a);
      Ipv4Back(a, lead);
    } else {
      GroupsBack(f, a);
      GroupedNoDots(f, a);
    }
  }

  lemma GroupedNoDots(f: Format, o: Address)
    ensures '.' !in Grouped(f, o)
  {
    var p := BestStart(o, 8);
    var end := p + RunAt(o, p);
    NoDotsJoined(Words(f, o));
    NoDotsJoined(Words(f, o[..p]));
    NoDotsJoined(Words(f, o[end..]));
    hide Joined, Words;
  }
}
