/**
 What every step of the router keeps.

 The ledger is the central claim: for every next hop, the datagrams withheld for it are, in
 arrival order, those that already met their fate followed by those still waiting.
 */
module RouterProofs {
  import opened Wrappers
  import opened Checksum
  import opened LongestMatch
  import opened Packets
  import opened RouterSpec

  predicate ForHop(cfg: Config, f: Frame, x: Ip) {
    Datagram(cfg, f) && NextHop(cfg, f) == Some(x)
  }

  /** The withheld datagrams whose next hop is x, in arrival order. */
  function HeldFor(cfg: Config, held: seq<Frame>, x: Ip): seq<Frame> {
    if held == [] then []
    else HeldFor(cfg, held[..|held| - 1], x) + if ForHop(cfg, held[|held| - 1], x) then [held[|held| - 1]] else []
  }

  predicate Settles(cfg: Config, o: Output, x: Ip) {
    (o.Forward? || o.Icmp?) && o.queued && ForHop(cfg, o.frame, x)
  }

  /** The withheld datagrams for x whose fate is in the trace, in the order it was met. */
  function SettledFor(cfg: Config, trace: seq<Output>, x: Ip): seq<Frame> {
    if trace == [] then []
    else (if Settles(cfg, trace[0], x) then [trace[0].frame] else []) + SettledFor(cfg, trace[1..], x)
  }

  /** The datagrams still waiting for x. */
  function WaitingFor(pending: seq<Pending>, x: Ip): seq<Frame> {
    if pending == [] then []
    else (if pending[0].ip == x then pending[0].withheld else []) + WaitingFor(pending[1..], x)
  }

  ghost predicate Ledger(cfg: Config, st: State) {
    forall x: Ip :: Balanced(cfg, st, x)
  }

  ghost predicate Balanced(cfg: Config, st: State, x: Ip) {
    HeldFor(cfg, st.held, x) == SettledFor(cfg, st.trace, x) + WaitingFor(st.pending, x)
  }

  /** No two pending requests ask for the same address. */
  ghost predicate Unique(pending: seq<Pending>) {
    forall i, j :: 0 <= i < j < |pending| ==> pending[i].ip != pending[j].ip
  }

  /** Each withheld datagram really has the request's address as its next hop. */
  ghost predicate HopsOk(cfg: Config, pending: seq<Pending>) {
    forall k :: 0 <= k < |pending| ==> HopOk(cfg, pending[k])
  }

  ghost predicate HopOk(cfg: Config, r: Pending) {
    && 1 <= r.timesSent <= MAX_SENT && r.withheld != []
    && forall i :: 0 <= i < |r.withheld| ==> ForHop(cfg, r.withheld[i], r.ip)
  }

  /** Every cached address was reported by an ARP reply. */
  ghost predicate CacheOk(st: State) {
    && |st.cache| == ARPCACHE_SIZE
    && forall i :: 0 <= i < |st.cache| && st.cache[i].valid ==> (st.cache[i].ip, st.cache[i].mac) in st.reports
  }

  /**
   A forwarded datagram leaves on its route's interface, for an address reported for its next
   hop; an ICMP message answers a datagram that can be answered, and one that had been withheld
   only with Time Exceeded on its last hop or with Host Unreachable.
   */
  ghost predicate SafeOutput(cfg: Config, reports: set<(Ip, Mac)>, o: Output) {
    && (o.Forward? ==>
          && Datagram(cfg, o.frame) && NextHop(cfg, o.frame).Some?
          && o.iface == cfg.table[RouteOf(cfg, o.frame).value].iface
          && (NextHop(cfg, o.frame).value, o.mac) in reports
          && Ttl(o.frame.raw) != 1)
    && (o.Icmp? ==> Datagram(cfg, o.frame) && Answerable(o.frame.raw, o.kind))
    && (o.Icmp? && o.queued ==>
          || (o.kind == TIME_EXCEEDED && o.code == 0 && Ttl(o.frame.raw) == 1)
          || (o.kind == DEST_UNREACHABLE && o.code == HOST_UNREACHABLE))
  }

  /** Only datagrams with a route are ever withheld. */
  ghost predicate HeldOk(cfg: Config, held: seq<Frame>) {
    forall i :: 0 <= i < |held| ==> Datagram(cfg, held[i]) && NextHop(cfg, held[i]).Some?
  }

  ghost predicate SafeTrace(cfg: Config, st: State) {
    forall i :: 0 <= i < |st.trace| ==> SafeOutput(cfg, st.reports, st.trace[i])
  }

  function RequestsFor(trace: seq<Output>, x: Ip): nat {
    if trace == [] then 0
    else (if trace[0].ArpRequest? && trace[0].ip == x then 1 else 0) + RequestsFor(trace[1..], x)
  }

  /** `times_sent` is the number of ARP requests sent since the pending request was added. */
  ghost predicate CountOk(trace: seq<Output>, r: Pending) {
    r.born <= |trace| && RequestsFor(trace[r.born..], r.ip) == r.timesSent
  }

  ghost predicate CountsOk(st: State) {
    forall k :: 0 <= k < |st.pending| ==> CountOk(st.trace, st.pending[k])
  }

  ghost predicate Inv(cfg: Config, st: State) {
    && Unique(st.pending) && HopsOk(cfg, st.pending) && CacheOk(st)
    && SafeTrace(cfg, st) && CountsOk(st) && Ledger(cfg, st) && HeldOk(cfg, st.held)
  }

  lemma InvRoutable(cfg: Config, st: State)
    requires HopsOk(cfg, st.pending)
    ensures AllRoutable(cfg, st.pending)
  {
    forall k | 0 <= k < |st.pending|
      ensures Routable(cfg, st.pending[k].withheld)
    {
      assert HopOk(cfg, st.pending[k]);
    }
  }

  // ----- sequences of outputs and of requests

  lemma {:induction false} SettledConcat(cfg: Config, s: seq<Output>, t: seq<Output>, x: Ip)
    ensures SettledFor(cfg, s + t, x) == SettledFor(cfg, s, x) + SettledFor(cfg, t, x)
  {
    if s == [] {
      assert s + t == t;
    } else {
      SettledConcat(cfg, s[1..], t, x);
      assert (s + t)[1..] == s[1..] + t && (s + t)[0] == s[0];
      Associate(if Settles(cfg, s[0], x) then [s[0].frame] else [], SettledFor(cfg, s[1..], x), SettledFor(cfg, t, x));
    }
  }

  lemma {:induction false} RequestsConcat(s: seq<Output>, t: seq<Output>, x: Ip)
    ensures RequestsFor(s + t, x) == RequestsFor(s, x) + RequestsFor(t, x)
  {
    if s == [] {
      assert s + t == t;
    } else {
      RequestsConcat(s[1..], t, x);
      assert (s + t)[1..] == s[1..] + t;
    }
  }

  /** Outputs that settle exactly these frames, one each, in order. */
  lemma {:induction false} SettledAll(cfg: Config, s: seq<Output>, frames: seq<Frame>, ip: Ip, x: Ip)
    requires |s| == |frames|
    requires forall i :: 0 <= i < |s| ==> Settles(cfg, s[i], ip) && s[i].frame == frames[i]
    ensures SettledFor(cfg, s, x) == if x == ip then frames else []
    ensures RequestsFor(s, x) == 0
  {
    if s != [] {
      assert Settles(cfg, s[0], ip);
      SettledAll(cfg, s[1..], frames[1..], ip, x);
      assert frames == [frames[0]] + frames[1..];
    }
  }

  lemma {:induction false} WaitingConcat(s: seq<Pending>, t: seq<Pending>, x: Ip)
    ensures WaitingFor(s + t, x) == WaitingFor(s, x) + WaitingFor(t, x)
  {
    if s == [] {
      assert s + t == t;
    } else {
      WaitingConcat(s[1..], t, x);
      assert (s + t)[1..] == s[1..] + t && (s + t)[0] == s[0];
      Associate(if s[0].ip == x then s[0].withheld else [], WaitingFor(s[1..], x), WaitingFor(t, x));
    }
  }

  lemma {:induction false} WaitingNone(s: seq<Pending>, x: Ip)
    requires forall i :: 0 <= i < |s| ==> s[i].ip != x
    ensures WaitingFor(s, x) == []
  {
    if s != [] {
      WaitingNone(s[1..], x);
    }
  }

  /** With distinct addresses, what waits for x is what the request for x withholds. */
  lemma WaitingAt(s: seq<Pending>, k: nat, x: Ip)
    requires Unique(s) && k < |s|
    ensures x == s[k].ip ==> WaitingFor(s, x) == s[k].withheld && WaitingFor(Removed(s, k), x) == []
    ensures x != s[k].ip ==> WaitingFor(Removed(s, k), x) == WaitingFor(s, x)
  {
    var l, r := s[..k], s[k + 1..];
    assert s == l + [s[k]] + r;
    WaitingConcat(l + [s[k]], r, x);
    WaitingConcat(l, [s[k]], x);
    WaitingConcat(l, r, x);
    assert WaitingFor([s[k]], x) == if s[k].ip == x then s[k].withheld else [];
    if x == s[k].ip {
      WaitingNone(l, x);
      WaitingNone(r, x);
    }
  }

  /** Adding a frame to one request changes what waits for its address only. */
  lemma WaitingUpdate(s: seq<Pending>, k: nat, r: Pending, x: Ip)
    requires Unique(s) && k < |s| && r.ip == s[k].ip
    ensures WaitingFor(s[k := r], x) == if x == r.ip then r.withheld else WaitingFor(s, x)
  {
    WaitingAt(s, k, x);
    WaitingAt(s[k := r], k, x);
    assert Removed(s[k := r], k) == Removed(s, k);
  }

  lemma CountAfter(trace: seq<Output>, out: seq<Output>, r: Pending, n: nat)
    requires CountOk(trace, r) && RequestsFor(out, r.ip) == n
    ensures CountOk(trace + out, r.(timesSent := r.timesSent + n))
  {
    assert (trace + out)[r.born..] == trace[r.born..] + out;
    RequestsConcat(trace[r.born..], out, r.ip);
  }

  // ----- one step at a time

  lemma SendBalanced(cfg: Config, st: State, o: Output, x: Ip)
    requires Balanced(cfg, st, x) && !(o.Forward? && o.queued) && !(o.Icmp? && o.queued)
    ensures Balanced(cfg, Send(st, o), x)
  {
    SettledConcat(cfg, st.trace, [o], x);
    assert SettledFor(cfg, [o], x) == [];
  }

  /** Outputs without ARP requests leave the counts alone. */
  lemma CountsAfter(st: State, out: seq<Output>)
    requires CountsOk(st)
    requires forall k :: 0 <= k < |st.pending| ==> RequestsFor(out, st.pending[k].ip) == 0
    ensures CountsOk(st.(trace := st.trace + out))
  {
    forall k | 0 <= k < |st.pending|
      ensures CountOk(st.trace + out, st.pending[k])
    {
      CountAfter(st.trace, out, st.pending[k], 0);
    }
  }

  /** Sending something that is neither a settlement nor an ARP request. */
  lemma SendKeeps(cfg: Config, st: State, o: Output)
    requires Inv(cfg, st) && !o.ArpRequest? && !(o.Forward? && o.queued) && !(o.Icmp? && o.queued)
    requires SafeOutput(cfg, st.reports, o)
    ensures Inv(cfg, Send(st, o))
  {
    hide SafeOutput, HeldFor, SettledFor, WaitingFor, CountOk;
    forall x: Ip
      ensures Balanced(cfg, Send(st, o), x)
    {
      assert Balanced(cfg, st, x);
      SendBalanced(cfg, st, o, x);
    }
    CountsAfter(st, [o]);
  }

  lemma HeldGrows(cfg: Config, held: seq<Frame>, f: Frame, hop: Ip, x: Ip)
    requires ForHop(cfg, f, hop)
    ensures HeldFor(cfg, held + [f], x) == HeldFor(cfg, held, x) + if x == hop then [f] else []
  {
    assert (held + [f])[..|held|] == held;
  }

  lemma JoinBalanced(cfg: Config, st: State, f: Frame, hop: Ip, iface: nat, x: Ip)
    requires Balanced(cfg, st, x) && Unique(st.pending) && ForHop(cfg, f, hop)
    requires PendingLookup(st.pending, hop).Some?
    ensures Balanced(cfg, Withhold(st, f, hop, iface), x)
  {
    hide ForHop, HeldFor, SettledFor, WaitingFor, Unique, PendingLookup;
    var k := PendingLookup(st.pending, hop).value;
    var r := st.pending[k];
    HeldGrows(cfg, st.held, f, hop, x);
    WaitingUpdate(st.pending, k, r.(withheld := r.withheld + [f]), x);
    WaitingAt(st.pending, k, x);
    Associate(SettledFor(cfg, st.trace, x), r.withheld, [f]);
  }

  lemma JoinedOk(cfg: Config, st: State, f: Frame, r: Pending)
    requires ForHop(cfg, f, r.ip) && HopOk(cfg, r) && CountOk(st.trace, r) && HeldOk(cfg, st.held)
    ensures HopOk(cfg, r.(withheld := r.withheld + [f])) && CountOk(st.trace, r.(withheld := r.withheld + [f]))
    ensures HeldOk(cfg, st.held + [f])
  {
  }

  /** Joining an existing request. */
  lemma JoinKeeps(cfg: Config, st: State, f: Frame, hop: Ip, iface: nat)
    requires Inv(cfg, st) && ForHop(cfg, f, hop) && PendingLookup(st.pending, hop).Some?
    ensures Inv(cfg, Withhold(st, f, hop, iface))
  {
    var k := PendingLookup(st.pending, hop).value;
    var r := st.pending[k];
    var r' := r.(withheld := r.withheld + [f]);
    var st' := Withhold(st, f, hop, iface);
    hide HopOk, CountOk, HeldOk, ForHop, SafeOutput, Ledger;
    assert HopOk(cfg, r) && CountOk(st.trace, r);
    JoinedOk(cfg, st, f, r);
    JoinLedger(cfg, st, f, hop, iface);
  }

  lemma JoinLedger(cfg: Config, st: State, f: Frame, hop: Ip, iface: nat)
    requires Ledger(cfg, st) && Unique(st.pending) && ForHop(cfg, f, hop) && PendingLookup(st.pending, hop).Some?
    ensures Ledger(cfg, Withhold(st, f, hop, iface))
  {
    hide ForHop, Balanced, Unique;
    forall x: Ip
      ensures Balanced(cfg, Withhold(st, f, hop, iface), x)
    {
      assert Balanced(cfg, st, x);
      JoinBalanced(cfg, st, f, hop, iface, x);
    }
  }

  lemma WaitingPush(s: seq<Pending>, r: Pending, x: Ip)
    requires forall i :: 0 <= i < |s| ==> s[i].ip != r.ip
    ensures WaitingFor(s + [r], x) == if x == r.ip then r.withheld else WaitingFor(s, x)
  {
    WaitingConcat(s, [r], x);
    assert WaitingFor([r], x) == if x == r.ip then r.withheld else [];
    if x == r.ip { WaitingNone(s, x); }
  }

  lemma OpenBalanced(cfg: Config, st: State, f: Frame, hop: Ip, iface: nat, x: Ip)
    requires Balanced(cfg, st, x) && ForHop(cfg, f, hop) && PendingLookup(st.pending, hop).None?
    ensures Balanced(cfg, Withhold(st, f, hop, iface), x)
  {
    hide HeldFor, SettledFor, WaitingFor, ForHop;
    HeldGrows(cfg, st.held, f, hop, x);
    SendBalanced(cfg, st, ArpRequest(iface, hop), x);
    WaitingPush(st.pending, Pending(hop, iface, 1, [f], |st.trace|), x);
    if x == hop { WaitingNone(st.pending, x); }
  }

  lemma OpenedOk(cfg: Config, st: State, f: Frame, r: Pending)
    requires ForHop(cfg, f, r.ip) && HeldOk(cfg, st.held)
    requires r.timesSent == 1 && r.withheld == [f] && r.born == |st.trace|
    requires PendingLookup(st.pending, r.ip).None?
    ensures var o := ArpRequest(r.iface, r.ip);
            && HopOk(cfg, r) && CountOk(st.trace + [o], r) && SafeOutput(cfg, st.reports, o)
            && HeldOk(cfg, st.held + [f])
            && forall k :: 0 <= k < |st.pending| ==> RequestsFor([o], st.pending[k].ip) == 0
  {
    var o := ArpRequest(r.iface, r.ip);
    assert (st.trace + [o])[r.born..] == [o];
    assert RequestsFor([o][1..], r.ip) == 0;
  }

  /** Opening a new request, with its first ARP request on the wire. */
  lemma OpenKeeps(cfg: Config, st: State, f: Frame, hop: Ip, iface: nat)
    requires Inv(cfg, st) && ForHop(cfg, f, hop) && PendingLookup(st.pending, hop).None?
    ensures Inv(cfg, Withhold(st, f, hop, iface))
  {
    var o := ArpRequest(iface, hop);
    var r := Pending(hop, iface, 1, [f], |st.trace|);
    var st' := Withhold(st, f, hop, iface);
    hide HopOk, CountOk, HeldOk, ForHop, SafeOutput, Ledger;
    OpenedOk(cfg, st, f, r);
    CountsAfter(st, [o]);
    OpenLedger(cfg, st, f, hop, iface);
  }

  lemma OpenLedger(cfg: Config, st: State, f: Frame, hop: Ip, iface: nat)
    requires Ledger(cfg, st) && ForHop(cfg, f, hop) && PendingLookup(st.pending, hop).None?
    ensures Ledger(cfg, Withhold(st, f, hop, iface))
  {
    hide ForHop, Balanced;
    forall x: Ip
      ensures Balanced(cfg, Withhold(st, f, hop, iface), x)
    {
      assert Balanced(cfg, st, x);
      OpenBalanced(cfg, st, f, hop, iface, x);
    }
  }

  lemma IcmpKeeps(cfg: Config, st: State, f: Frame, kind: Byte, code: Byte)
    requires Inv(cfg, st) && Datagram(cfg, f) && Answerable(f.raw, kind)
    ensures Inv(cfg, Send(st, Icmp(f, kind, code, false)))
  {
    SendKeeps(cfg, st, Icmp(f, kind, code, false));
  }

  lemma RouteKeeps(cfg: Config, st: State, f: Frame)
    requires WellFormedConfig(cfg) && Datagram(cfg, f) && Inv(cfg, st)
    ensures Inv(cfg, RouterSpec.Route(cfg, st, f))
  {
    IcmpKeeps(cfg, st, f, DEST_UNREACHABLE, NET_UNREACHABLE);
    IcmpKeeps(cfg, st, f, TIME_EXCEEDED, 0);
    if NextHop(cfg, f).Some? {
      var hop := NextHop(cfg, f).value;
      match CacheLookup(st.cache, hop)
      case None =>
        if PendingLookup(st.pending, hop).Some? {
          JoinKeeps(cfg, st, f, hop, OutIface(cfg, f));
        } else {
          OpenKeeps(cfg, st, f, hop, OutIface(cfg, f));
        }
      case Some(c) =>
        if Ttl(f.raw) != 1 {
          SendKeeps(cfg, st, Forward(f, OutIface(cfg, f), st.cache[c].mac, false));
        }
    }
  }

  lemma HandleIpKeeps(cfg: Config, st: State, f: Frame)
    requires WellFormedConfig(cfg) && Datagram(cfg, f) && Inv(cfg, st)
    ensures Inv(cfg, HandleIp(cfg, st, f))
  {
    hide Inv, RouterSpec.Route;
    IcmpKeeps(cfg, st, f, DEST_UNREACHABLE, PORT_UNREACHABLE);
    IcmpKeeps(cfg, st, f, TIME_EXCEEDED, 0);
    if Proto(f.raw) == PROTO_ICMP {
      IcmpKeeps(cfg, st, f, ECHO_REPLY, 0);
    }
    IcmpKeeps(cfg, st, f, DEST_UNREACHABLE, PROTOCOL_UNREACHABLE);
    IcmpKeeps(cfg, st, f, DEST_UNREACHABLE, HOST_UNREACHABLE);
    RouteKeeps(cfg, st, f);
  }

  // ----- an ARP reply

  lemma ReleaseSettles(cfg: Config, r: Pending, mac: Mac)
    requires WellFormedConfig(cfg) && HopOk(cfg, r) && Routable(cfg, r.withheld)
    ensures var out := ReleaseAll(cfg, r.withheld, mac);
            forall i :: 0 <= i < |out| ==> Settles(cfg, out[i], r.ip) && out[i].frame == r.withheld[i]
  {
  }

  lemma ReleaseSafe(cfg: Config, r: Pending, mac: Mac, reports: set<(Ip, Mac)>)
    requires WellFormedConfig(cfg) && HopOk(cfg, r) && Routable(cfg, r.withheld) && (r.ip, mac) in reports
    ensures var out := ReleaseAll(cfg, r.withheld, mac);
            forall i :: 0 <= i < |out| ==> SafeOutput(cfg, reports, out[i])
  {
    var out := ReleaseAll(cfg, r.withheld, mac);
    forall i | 0 <= i < |out|
      ensures SafeOutput(cfg, reports, out[i])
    {
      assert ForHop(cfg, r.withheld[i], r.ip);
    }
  }

  /** Settling a whole request moves its frames from waiting to settled. */
  lemma SettleBalanced(cfg: Config, st: State, k: nat, out: seq<Output>, x: Ip)
    requires Balanced(cfg, st, x) && Unique(st.pending) && k < |st.pending| && |out| == |st.pending[k].withheld|
    requires forall i :: 0 <= i < |out| ==>
               Settles(cfg, out[i], st.pending[k].ip) && out[i].frame == st.pending[k].withheld[i]
    ensures Balanced(cfg, st.(trace := st.trace + out, pending := Removed(st.pending, k)), x)
  {
    var r := st.pending[k];
    hide HeldFor, SettledFor, WaitingFor, Settles;
    SettledConcat(cfg, st.trace, out, x);
    SettledAll(cfg, out, r.withheld, r.ip, x);
    WaitingAt(st.pending, k, x);
  }

  lemma RemovedKeeps(cfg: Config, st: State, k: nat)
    requires Unique(st.pending) && HopsOk(cfg, st.pending) && CountsOk(st) && k < |st.pending|
    ensures var st' := st.(pending := Removed(st.pending, k));
            Unique(st'.pending) && HopsOk(cfg, st'.pending) && CountsOk(st')
  {
    hide HopOk, CountOk;
    var s := Removed(st.pending, k);
    assert forall i :: 0 <= i < |s| ==> s[i] == st.pending[if i < k then i else i + 1];
  }

  /** Learning alone: the cache and the log of replies grow. */
  lemma CacheKeeps(cfg: Config, st: State, ip: Ip, mac: Mac, c: nat, now: int)
    requires Inv(cfg, st) && c < |st.cache|
    ensures Inv(cfg, st.(reports := st.reports + {(ip, mac)}))
    ensures Inv(cfg, st.(reports := st.reports + {(ip, mac)}, cache := st.cache[c := CacheEntry(true, ip, mac, now)]))
  {
    var st' := st.(reports := st.reports + {(ip, mac)});
    forall i | 0 <= i < |st.trace|
      ensures SafeOutput(cfg, st'.reports, st.trace[i])
    {
      assert SafeOutput(cfg, st.reports, st.trace[i]);
    }
    forall x: Ip
      ensures HeldFor(cfg, st.held, x) == SettledFor(cfg, st.trace, x) + WaitingFor(st.pending, x)
    {
      assert Balanced(cfg, st, x);
    }
  }

  lemma SettleKeeps(cfg: Config, st: State, k: nat, mac: Mac)
    requires WellFormedConfig(cfg) && Inv(cfg, st) && AllRoutable(cfg, st.pending)
    requires k < |st.pending| && (st.pending[k].ip, mac) in st.reports
    ensures Inv(cfg, st.(trace := st.trace + ReleaseAll(cfg, st.pending[k].withheld, mac),
        pending := Removed(st.pending, k)))
  {
    var r := st.pending[k];
    var out := ReleaseAll(cfg, r.withheld, mac);
    assert HopOk(cfg, r);
    ReleaseSettles(cfg, r, mac);
    ReleaseSafe(cfg, r, mac, st.reports);
    var st' := st.(trace := st.trace + out, pending := Removed(st.pending, k));
    hide HopOk, CountOk, SafeOutput, Settles, Balanced, HeldFor, SettledFor, WaitingFor, ReleaseAll;
    forall x: Ip
      ensures Balanced(cfg, st', x)
    {
      assert Balanced(cfg, st, x);
      SettleBalanced(cfg, st, k, out, x);
    }
    forall i | 0 <= i < |st.pending|
      ensures RequestsFor(out, st.pending[i].ip) == 0
    {
      SettledAll(cfg, out, r.withheld, r.ip, st.pending[i].ip);
    }
    CountsAfter(st, out);
    RemovedKeeps(cfg, st.(trace := st.trace + out), k);
  }

  lemma LearnKeeps(cfg: Config, st: State, ip: Ip, mac: Mac, now: int)
    requires WellFormedConfig(cfg) && Inv(cfg, st) && AllRoutable(cfg, st.pending)
    ensures Inv(cfg, Learn(cfg, st, ip, mac, now))
  {
    CacheKeeps(cfg, st, ip, mac, 0, now);
    match FreeSlot(st.cache)
    case None =>
      var st' := st.(reports := st.reports + {(ip, mac)});
      assert Inv(cfg, st');
      StoppedKeeps(cfg, st');
    case Some(c) =>
      CacheKeeps(cfg, st, ip, mac, c, now);
      var st' := st.(reports := st.reports + {(ip, mac)}, cache := st.cache[c := CacheEntry(true, ip, mac, now)]);
      match PendingLookup(st.pending, ip)
      case None =>
      case Some(k) => SettleKeeps(cfg, st', k, mac);
  }

  lemma StoppedKeeps(cfg: Config, st: State)
    requires Inv(cfg, st)
    ensures Inv(cfg, st.(stopped := true))
  {
    hide SafeOutput, CountOk, HeldFor, SettledFor, WaitingFor;
    forall x: Ip
      ensures Balanced(cfg, st.(stopped := true), x)
    {
      assert Balanced(cfg, st, x);
    }
  }

  // ----- a tick

  lemma UnreachableSettles(cfg: Config, r: Pending, x: Ip)
    requires HopOk(cfg, r)
    ensures SettledFor(cfg, UnreachableAll(r.withheld), x) == if x == r.ip then r.withheld else []
    ensures RequestsFor(UnreachableAll(r.withheld), x) == 0
  {
    SettledAll(cfg, UnreachableAll(r.withheld), r.withheld, r.ip, x);
  }

  lemma RequestAlone(cfg: Config, iface: nat, ip: Ip, x: Ip)
    ensures SettledFor(cfg, [ArpRequest(iface, ip)], x) == []
    ensures RequestsFor([ArpRequest(iface, ip)], x) == if x == ip then 1 else 0
  {
    var o := ArpRequest(iface, ip);
    assert [o][1..] == [];
  }

  /** What waited for x is, after the tick, settled or still waiting; in each case in order. */
  lemma {:induction false} TickSplits(cfg: Config, pending: seq<Pending>, x: Ip)
    requires Unique(pending) && HopsOk(cfg, pending)
    ensures WaitingFor(pending, x) == SettledFor(cfg, TickOutputs(pending), x) + WaitingFor(TickKeep(pending), x)
  {
    hide *;
    if pending == [] {
      NothingPending(cfg, pending, x);
    } else {
      var r, rest := pending[0], pending[1..];
      FirstAlone(cfg, pending, x);
      TickSplits(cfg, rest, x);
      TickFirst(cfg, r, rest, x);
      KeepFirst(r, rest, x);
      Combine(if r.ip == x then r.withheld else [], SettledFor(cfg, TickOutputs(rest), x),
              WaitingFor(TickKeep(rest), x), r.timesSent < MAX_SENT);
    }
  }

  lemma NothingPending(cfg: Config, pending: seq<Pending>, x: Ip)
    requires pending == []
    ensures WaitingFor(pending, x) == [] && SettledFor(cfg, TickOutputs(pending), x) == []
        && WaitingFor(TickKeep(pending), x) == []
  {
  }

  /** With the first request for x, no other waits for x. */
  lemma FirstAlone(cfg: Config, pending: seq<Pending>, x: Ip)
    requires Unique(pending) && HopsOk(cfg, pending) && pending != []
    ensures [pending[0]] + pending[1..] == pending && HopOk(cfg, pending[0])
    ensures Unique(pending[1..]) && HopsOk(cfg, pending[1..])
    ensures pending[0].ip == x ==> WaitingFor(pending[1..], x) == []
  {
    hide HopOk;
    if pending[0].ip == x { WaitingNone(pending[1..], x); }
  }

  lemma Combine<T>(mine: seq<T>, out: seq<T>, keep: seq<T>, early: bool)
    requires mine == [] || out + keep == []
    ensures mine + (out + keep) == ((if early then [] else mine) + out) + ((if early then mine else []) + keep)
  {
    if mine != [] {
      assert |out + keep| == |out| + |keep|;
    }
  }

  /** The contribution of one request to what a tick settles and keeps. */
  lemma TickFirst(cfg: Config, r: Pending, rest: seq<Pending>, x: Ip)
    requires HopOk(cfg, r)
    ensures var mine := if r.ip == x then r.withheld else [];
            var out, keep := SettledFor(cfg, TickOutputs(rest), x), WaitingFor(TickKeep(rest), x);
            && SettledFor(cfg, TickOutputs([r] + rest), x) == (if r.timesSent < MAX_SENT then [] else mine) + out
            && WaitingFor(TickKeep([r] + rest), x) == (if r.timesSent < MAX_SENT then mine else []) + keep
  {
    assert ([r] + rest)[0] == r && ([r] + rest)[1..] == rest;
    SettledConcat(cfg, TickOutput(r), TickOutputs(rest), x);
    if r.timesSent < MAX_SENT {
      RequestAlone(cfg, r.iface, r.ip, x);
      KeepFirst(r.(timesSent := r.timesSent + 1), TickKeep(rest), x);
    } else {
      UnreachableSettles(cfg, r, x);
      assert TickKeep([r] + rest) == TickKeep(rest);
    }
  }

  lemma KeepFirst(r: Pending, rest: seq<Pending>, x: Ip)
    ensures WaitingFor([r] + rest, x) == (if r.ip == x then r.withheld else []) + WaitingFor(rest, x)
  {
    assert ([r] + rest)[1..] == rest;
  }

  /** A tick sends one request for each address it keeps asking for, and none for others. */
  lemma {:induction false} TickRequests(cfg: Config, pending: seq<Pending>, x: Ip)
    requires Unique(pending) && HopsOk(cfg, pending)
    ensures RequestsFor(TickOutputs(pending), x) <= 1
    ensures (forall i :: 0 <= i < |pending| ==> pending[i].ip != x) ==> RequestsFor(TickOutputs(pending), x) == 0
    ensures forall k :: 0 <= k < |pending| && pending[k].ip == x ==>
              RequestsFor(TickOutputs(pending), x) == if pending[k].timesSent < MAX_SENT then 1 else 0
  {
    hide *;
    if pending == [] {
      NoTick(pending, x);
    } else {
      var r, rest := pending[0], pending[1..];
      FirstAlone(cfg, pending, x);
      TickRequests(cfg, rest, x);
      FirstRequests(cfg, r, rest, x);
      OthersLater(pending, x);
    }
  }

  lemma NoTick(pending: seq<Pending>, x: Ip)
    requires pending == []
    ensures RequestsFor(TickOutputs(pending), x) == 0
  {
  }

  lemma FirstRequests(cfg: Config, r: Pending, rest: seq<Pending>, x: Ip)
    requires HopOk(cfg, r)
    ensures RequestsFor(TickOutputs([r] + rest), x)
         == (if r.ip == x && r.timesSent < MAX_SENT then 1 else 0) + RequestsFor(TickOutputs(rest), x)
  {
    hide HopOk;
    assert ([r] + rest)[0] == r && ([r] + rest)[1..] == rest;
    RequestsConcat(TickOutput(r), TickOutputs(rest), x);
    RequestAlone(cfg, r.iface, r.ip, x);
    if r.timesSent >= MAX_SENT {
      UnreachableSettles(cfg, r, x);
    }
    hide RequestsFor;
  }

  /** With distinct addresses the first request is the only one for its address. */
  lemma OthersLater(pending: seq<Pending>, x: Ip)
    requires pending != [] && Unique(pending)
    ensures forall k :: 0 < k < |pending| ==> pending[k] == pending[1..][k - 1]
    ensures forall k :: 0 <= k < |pending| - 1 ==> pending[1..][k] == pending[k + 1]
    ensures pending[0].ip == x ==> forall k :: 0 <= k < |pending| - 1 ==> pending[1..][k].ip != x
  {
  }

  /** What a tick keeps was pending, and is now sent once more. */
  ghost predicate Kept(pending: seq<Pending>, r: Pending) {
    exists k :: 0 <= k < |pending| && pending[k].timesSent < MAX_SENT
                && r == pending[k].(timesSent := pending[k].timesSent + 1)
  }

  lemma {:induction false} TickKept(pending: seq<Pending>)
    requires Unique(pending)
    ensures forall j :: 0 <= j < |TickKeep(pending)| ==> Kept(pending, TickKeep(pending)[j])
    ensures Unique(TickKeep(pending))
  {
    if pending != [] {
      var r, rest := pending[0], pending[1..];
      TickKept(rest);
      var keep := TickKeep(rest);
      forall j | 0 <= j < |keep|
        ensures Kept(pending, keep[j]) && keep[j].ip != r.ip
      {
        assert Kept(rest, keep[j]);
        var k :| 0 <= k < |rest| && rest[k].timesSent < MAX_SENT
            && keep[j] == rest[k].(timesSent := rest[k].timesSent + 1);
        assert pending[k + 1] == rest[k];
      }
      if r.timesSent < MAX_SENT {
        assert Kept(pending, r.(timesSent := r.timesSent + 1)) by { assert pending[0] == r; }
      }
    }
  }

  lemma TickBalanced(cfg: Config, st: State, now: int, x: Ip)
    requires Balanced(cfg, st, x) && Unique(st.pending) && HopsOk(cfg, st.pending)
    ensures Balanced(cfg, Tick(st, now), x)
  {
    TickSplits(cfg, st.pending, x);
    SettledConcat(cfg, st.trace, TickOutputs(st.pending), x);
    hide HeldFor, SettledFor, WaitingFor, TickOutputs, TickKeep, HopsOk, Unique, Purge;
    Associate(SettledFor(cfg, st.trace, x), SettledFor(cfg, TickOutputs(st.pending), x),
        WaitingFor(TickKeep(st.pending), x));
  }

  lemma {:induction false} TickSafe(cfg: Config, pending: seq<Pending>, reports: set<(Ip, Mac)>)
    requires HopsOk(cfg, pending)
    ensures forall i :: 0 <= i < |TickOutputs(pending)| ==> SafeOutput(cfg, reports, TickOutputs(pending)[i])
  {
    if pending != [] {
      assert HopOk(cfg, pending[0]);
      TickSafe(cfg, pending[1..], reports);
    }
  }

  lemma KeptOk(cfg: Config, st: State, r: Pending)
    requires Inv(cfg, st) && Kept(st.pending, r)
    ensures HopOk(cfg, r) && CountOk(st.trace + TickOutputs(st.pending), r)
  {
    var k :| 0 <= k < |st.pending| && st.pending[k].timesSent < MAX_SENT
             && r == st.pending[k].(timesSent := st.pending[k].timesSent + 1);
    assert HopOk(cfg, st.pending[k]) && CountOk(st.trace, st.pending[k]);
    TickRequests(cfg, st.pending, r.ip);
    CountAfter(st.trace, TickOutputs(st.pending), st.pending[k], 1);
  }

  lemma TickKeeps(cfg: Config, st: State, now: int)
    requires Inv(cfg, st)
    ensures Inv(cfg, Tick(st, now))
  {
    var st' := Tick(st, now);
    TickKept(st.pending);
    TickSafe(cfg, st.pending, st.reports);
    forall j | 0 <= j < |st'.pending|
      ensures HopOk(cfg, st'.pending[j]) && CountOk(st'.trace, st'.pending[j])
    {
      KeptOk(cfg, st, st'.pending[j]);
    }
    forall x: Ip
      ensures Balanced(cfg, st', x)
    {
      assert Balanced(cfg, st, x);
      TickBalanced(cfg, st, now, x);
    }
    hide HopOk, CountOk, SafeOutput, Kept, HeldFor, SettledFor, WaitingFor, TickOutputs, TickKeep;
  }

  // ----- whole runs

  lemma HandleArpKeeps(cfg: Config, st: State, f: Frame, now: int)
    requires WellFormedConfig(cfg) && WellFormed(cfg, f) && IsArp(f.raw) && Inv(cfg, st) && AllRoutable(cfg, st.pending)
    ensures Inv(cfg, HandleArp(cfg, st, f, now))
  {
    var sha: Mac, spa := f.raw[22..28], Load(f.raw, 28);
    LearnKeeps(cfg, st, spa, sha, now);
    SendKeeps(cfg, st, ArpReply(f.inIface, sha, spa));
  }

  /** Every step keeps the invariant. */
  lemma StepKeeps(cfg: Config, st: State, e: Event)
    requires WellFormedConfig(cfg) && Inv(cfg, st) && (e.Arrival? ==> WellFormed(cfg, e.frame))
    ensures AllRoutable(cfg, st.pending) && Inv(cfg, Step(cfg, st, e))
  {
    InvRoutable(cfg, st);
    match e
    case Round(now) => TickKeeps(cfg, st, now);
    case Arrival(f, now) =>
      if IsIp(f.raw) {
        HandleIpKeeps(cfg, st, f);
      } else if IsArp(f.raw) {
        HandleArpKeeps(cfg, st, f, now);
      }
  }
}
