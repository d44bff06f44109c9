/** Splitting a port into child ports over its lanes. */
module Breakout {
  import opened Texts
  import opened Decimals
  import opened Dicts

  /** One part of a breakout mode: so many ports at a speed, over so many lanes together. */
  datatype Mode = Mode(numPorts: nat, speed: nat, laneCount: nat)

  datatype Parent = Parent(base: nat, lanes: seq<string>, indexes: seq<string>, aliases: seq<string>, modes: seq<Mode>, mellanox: bool)

  datatype Port = Port(alias: string, lanes: string, speed: string, index: string, subport: string, fec: bool)

  /** The lanes of one child port. */
  datatype Slot = Slot(lane: nat, len: nat, speed: nat)

  function PortName(n: nat): string {
    "Ethernet" + Decimal(n)
  }

  function TotalLanes(modes: seq<Mode>): nat {
    if modes == [] then 0 else modes[0].laneCount + TotalLanes(modes[1..])
  }

  function TotalPorts(modes: seq<Mode>): nat {
    if modes == [] then 0 else modes[0].numPorts + TotalPorts(modes[1..])
  }

  /** No division by zero: there are ports, and each gets at least one lane. */
  predicate Divisible(m: Mode) {
    m.numPorts > 0 && m.laneCount / m.numPorts > 0
  }

  predicate AllDivisible(modes: seq<Mode>) {
    forall m :: m in modes ==> Divisible(m)
  }

  /** So many lanes for each of so many ports. */
  function Span(k: nat, per: nat): nat {
    k * per
  }

  lemma SpanStep(k: nat, per: nat)
    requires k > 0
    ensures Span(k, per) == per + Span(k - 1, per)
  {
  }

  lemma SpanNone(per: nat)
    ensures Span(0, per) == 0
  {
  }

  function ModeSlots(m: Mode, k: nat, lane: nat): (r: seq<Slot>)
    requires m.numPorts > 0
    ensures |r| == k
  {
    if k == 0 then []
    else [Slot(lane, m.laneCount / m.numPorts, m.speed)] + ModeSlots(m, k - 1, lane + m.laneCount / m.numPorts)
  }

  function Slots(modes: seq<Mode>, lane: nat): (r: seq<Slot>)
    requires AllDivisible(modes)
    ensures |r| == TotalPorts(modes)
  {
    if modes == [] then []
    else
      assert modes[0] in modes;
      var m := modes[0];
      ModeSlots(m, m.numPorts, lane) + Slots(modes[1..], lane + Span(m.numPorts, m.laneCount / m.numPorts))
  }

  function PortOf(p: Parent, s: Slot, i: nat): Port
    requires s.lane + s.len <= |p.lanes| && s.lane < |p.indexes| && i < |p.aliases| && s.len > 0
  {
    Port(p.aliases[i],
         JoinOn(p.lanes[s.lane..s.lane + s.len], ','),
         Decimal(s.speed),
         p.indexes[s.lane],
         if TotalPorts(p.modes) == 1 then "0" else Decimal(i + 1),
         s.speed / s.len >= 50000 && !p.mellanox)
  }

  /** The slots can be filled: lanes, aliases and indexes suffice. */
  predicate Fillable(p: Parent, slots: seq<Slot>) {
    && |slots| <= |p.aliases|
    && forall i :: 0 <= i < |slots| ==>
         slots[i].len > 0 && slots[i].lane + slots[i].len <= |p.lanes| && slots[i].lane < |p.indexes|
  }

  function Filled(p: Parent, slots: seq<Slot>): (r: seq<(string, Port)>)
    requires Fillable(p, slots)
    ensures |r| == |slots|
  {
    seq(|slots|, i requires 0 <= i < |slots| => (PortName(p.base + slots[i].lane), PortOf(p, slots[i], i)))
  }

  /** When the configuration can be built. */
  predicate Buildable(p: Parent) {
    && TotalLanes(p.modes) <= |p.lanes|
    && AllDivisible(p.modes)
    && TotalPorts(p.modes) <= |p.aliases|
    && forall i :: 0 <= i < TotalPorts(p.modes) ==> Slots(p.modes, 0)[i].lane < |p.indexes|
  }

  // ----- slots -----

  /** Slots from a lane to a lane, each non-empty and beginning where the one before ends. */
  predicate Contiguous(slots: seq<Slot>, from: nat, to: nat) {
    if slots == [] then from == to
    else slots[0].lane == from && slots[0].len > 0 && Contiguous(slots[1..], from + slots[0].len, to)
  }

  lemma {:induction false} ModeContiguous(m: Mode, k: nat, lane: nat)
    requires Divisible(m)
    ensures Contiguous(ModeSlots(m, k, lane), lane, lane + Span(k, m.laneCount / m.numPorts))
  {
    hide Span;
    var per := m.laneCount / m.numPorts;
    if k == 0 {
      SpanNone(per);
    } else {
      ModeContiguous(m, k - 1, lane + per);
      assert ModeSlots(m, k, lane)[1..] == ModeSlots(m, k - 1, lane + per);
      SpanStep(k, per);
    }
  }

  lemma {:induction false} ContiguousAppend(a: seq<Slot>, b: seq<Slot>, x: nat, y: nat, z: nat)
    requires Contiguous(a, x, y) && Contiguous(b, y, z)
    ensures Contiguous(a + b, x, z)
  {
    if a == [] {
      assert a + b == b;
    } else {
      ContiguousAppend(a[1..], b, x + a[0].len, y, z);
      assert (a + b)[1..] == a[1..] + b;
    }
  }

  /** The lanes used by all the ports. */
  function Used(modes: seq<Mode>): nat
    requires AllDivisible(modes)
  {
    if modes == [] then 0
    else
      assert modes[0] in modes;
      Span(modes[0].numPorts, modes[0].laneCount / modes[0].numPorts) + Used(modes[1..])
  }

  lemma {:induction false} SlotsContiguous(modes: seq<Mode>, lane: nat)
    requires AllDivisible(modes)
    ensures Contiguous(Slots(modes, lane), lane, lane + Used(modes))
  {
    hide Span, ModeSlots, Contiguous;
    NoSlots(lane);
    if modes != [] {
      var m := modes[0];
      assert m in modes;
      var mid := lane + Span(m.numPorts, m.laneCount / m.numPorts);
      ModeContiguous(m, m.numPorts, lane);
      SlotsContiguous(modes[1..], mid);
      ContiguousAppend(ModeSlots(m, m.numPorts, lane), Slots(modes[1..], mid), lane, mid, lane + Used(modes));
    }
  }

  lemma NoSlots(lane: nat)
    ensures Contiguous([], lane, lane)
  {
  }

  lemma ProductOfQuotient(a: nat, n: nat)
    requires n > 0
    ensures Span(n, a / n) <= a && (a % n == 0 ==> Span(n, a / n) == a)
  {
  }

  /** No more lanes are used than assigned, and all of them when port counts divide lane counts. */
  lemma {:induction false} UsedWithin(modes: seq<Mode>)
    requires AllDivisible(modes)
    ensures Used(modes) <= TotalLanes(modes)
    ensures (forall m :: m in modes ==> m.laneCount % m.numPorts == 0) ==> Used(modes) == TotalLanes(modes)
  {
    if modes != [] {
      assert modes[0] in modes;
      ProductOfQuotient(modes[0].laneCount, modes[0].numPorts);
      UsedWithin(modes[1..]);
    }
  }

  lemma {:induction false} ContiguousAt(slots: seq<Slot>, from: nat, to: nat, i: nat)
    requires Contiguous(slots, from, to) && i < |slots|
    ensures from <= slots[i].lane && slots[i].lane + slots[i].len <= to && slots[i].len > 0
  {
    if i == 0 {
      ContiguousEnd(slots[1..], from + slots[0].len, to);
    } else {
      ContiguousAt(slots[1..], from + slots[0].len, to, i - 1);
    }
  }

  lemma {:induction false} ContiguousEnd(slots: seq<Slot>, from: nat, to: nat)
    requires Contiguous(slots, from, to)
    ensures from <= to
  {
    if slots != [] {
      ContiguousEnd(slots[1..], from + slots[0].len, to);
    }
  }

  /** Slots do not overlap: an earlier one ends before a later one begins. */
  lemma {:induction false} ContiguousApart(slots: seq<Slot>, from: nat, to: nat, i: nat, j: nat)
    requires Contiguous(slots, from, to) && i < j < |slots|
    ensures slots[i].lane + slots[i].len <= slots[j].lane
  {
    if i == 0 {
      ContiguousAt(slots[1..], from + slots[0].len, to, j - 1);
    } else {
      ContiguousApart(slots[1..], from + slots[0].len, to, i - 1, j - 1);
    }
  }

  function LanesOf(p: Parent, slots: seq<Slot>): seq<string>
    requires forall s :: s in slots ==> s.lane + s.len <= |p.lanes|
  {
    if slots == [] then []
    else
      assert slots[0] in slots;
      p.lanes[slots[0].lane..slots[0].lane + slots[0].len] + LanesOf(p, slots[1..])
  }

  /** One after the other the slots give the lanes from the first to the last. */
  lemma {:induction false} LanesConcatenate(p: Parent, slots: seq<Slot>, from: nat, to: nat)
    requires Contiguous(slots, from, to) && to <= |p.lanes| && forall s :: s in slots ==> s.lane + s.len <= |p.lanes|
    ensures from <= to && LanesOf(p, slots) == p.lanes[from..to]
  {
    ContiguousEnd(slots, from, to);
    if slots != [] {
      assert slots[0] in slots;
      LanesConcatenate(p, slots[1..], from + slots[0].len, to);
      var mid := from + slots[0].len;
      assert p.lanes[from..to] == p.lanes[from..mid] + p.lanes[mid..to];
    }
  }

  // ----- the configuration -----

  lemma BuildableFills(p: Parent)
    requires Buildable(p)
    ensures AllDivisible(p.modes)
    ensures Contiguous(Slots(p.modes, 0), 0, Used(p.modes)) && Used(p.modes) <= |p.lanes|
    ensures Fillable(p, Slots(p.modes, 0))
  {
    hide Contiguous, Slots, Used;
    SlotsContiguous(p.modes, 0);
    UsedWithin(p.modes);
    var slots := Slots(p.modes, 0);
    forall i | 0 <= i < |slots|
      ensures slots[i].len > 0 && slots[i].lane + slots[i].len <= |p.lanes|
    {
      ContiguousAt(slots, 0, Used(p.modes), i);
    }
  }

  lemma NamesDiffer(a: nat, b: nat)
    requires a != b
    ensures PortName(a) != PortName(b)
  {
    DecimalCanonical(a);
    DecimalCanonical(b);
    assert PortName(a)[8..] == Decimal(a) && PortName(b)[8..] == Decimal(b);
  }

  /** Child ports have different names, and each name lies in the parent's range. */
  lemma FilledDistinct(p: Parent)
    requires Buildable(p)
    ensures AllDivisible(p.modes)
    ensures Fillable(p, Slots(p.modes, 0)) && Distinct(Filled(p, Slots(p.modes, 0)))
  {
    hide Contiguous, Slots, Used, PortName, PortOf, Buildable, AllDivisible;
    BuildableFills(p);
    var slots := Slots(p.modes, 0);
    var ports := Filled(p, slots);
    forall i, j | 0 <= i < j < |ports|
      ensures ports[i].0 != ports[j].0
    {
      ContiguousAt(slots, 0, Used(p.modes), i);
      ContiguousApart(slots, 0, Used(p.modes), i, j);
      NamesDiffer(p.base + slots[i].lane, p.base + slots[j].lane);
    }
  }

  /**
   Whenever a configuration is built, its ports have different names and hold adjacent,
   non-empty slices of the parent's lanes that together are its first lanes; if port counts
   divide lane counts, all the assigned ones.
   */
  lemma SlicesOfParent(p: Parent)
    requires Buildable(p)
    ensures var slots := Slots(p.modes, 0);
            && Fillable(p, slots) && Distinct(Filled(p, slots))
            && Used(p.modes) <= |p.lanes| && LanesOf(p, slots) == p.lanes[..Used(p.modes)]
            && ((forall m :: m in p.modes ==> m.laneCount % m.numPorts == 0) ==> Used(p.modes) == TotalLanes(p.modes))
  {
    hide Contiguous, Slots, Used, PortOf;
    BuildableFills(p);
    FilledDistinct(p);
    UsedWithin(p.modes);
    LanesConcatenate(p, Slots(p.modes, 0), 0, Used(p.modes));
  }

  function ConfigOf(p: Parent): seq<(string, Port)>
    requires Buildable(p)
  {
    BuildableFills(p);
    Filled(p, Slots(p.modes, 0))
  }

  /** The lanes written for the i-th child port are those of its slot, and its name is that of its first lane. */
  lemma LanesReadBack(p: Parent, i: nat)
    requires Buildable(p) && i < TotalPorts(p.modes) && forall lane :: lane in p.lanes ==> ',' !in lane
    ensures AllDivisible(p.modes) && i < |ConfigOf(p)|
    ensures var s := Slots(p.modes, 0)[i];
            && s.lane + s.len <= |p.lanes|
            && SplitOn(ConfigOf(p)[i].1.lanes, ',') == p.lanes[s.lane..s.lane + s.len]
            && ConfigOf(p)[i].0 == PortName(p.base + s.lane)
  {
    hide SplitOn, JoinOn, Slots, Contiguous, Used, PortName;
    BuildableFills(p);
    var s := Slots(p.modes, 0)[i];
    var own := p.lanes[s.lane..s.lane + s.len];
    assert forall lane :: lane in own ==> lane in p.lanes;
    SplitOfJoin(own, ',');
  }

  // ----- each child port, from the mode it belongs to -----

  lemma {:induction false} ModeSlotAt(m: Mode, k: nat, lane: nat, j: nat)
    requires m.numPorts > 0 && j < k
    ensures ModeSlots(m, k, lane)[j] == Slot(lane + Span(j, m.laneCount / m.numPorts), m.laneCount / m.numPorts, m.speed)
  {
    hide Span;
    var per := m.laneCount / m.numPorts;
    if j == 0 {
      SpanNone(per);
    } else {
      ModeSlotAt(m, k - 1, lane + per, j - 1);
      SpanStep(j, per);
    }
  }

  lemma AllButFirst(modes: seq<Mode>, k: nat)
    requires 0 < k <= |modes| && AllDivisible(modes)
    ensures modes[..k][0] == modes[0] && modes[..k][1..] == modes[1..][..k-1]
    ensures AllDivisible(modes[1..]) && AllDivisible(modes[..k]) && AllDivisible(modes[1..][..k-1]) && Divisible(modes[0])
  {
    assert modes[0] in modes;
  }

  /** The j-th port of the k-th part comes after all ports and lanes of the earlier parts. */
  lemma {:induction false} SlotAt(modes: seq<Mode>, lane: nat, k: nat, j: nat)
    requires AllDivisible(modes) && k < |modes| && j < modes[k].numPorts
    ensures AllDivisible(modes[..k]) && Divisible(modes[k]) && TotalPorts(modes[..k]) + j < |Slots(modes, lane)|
    ensures var m := modes[k];
            Slots(modes, lane)[TotalPorts(modes[..k]) + j] ==
            Slot(lane + Used(modes[..k]) + Span(j, m.laneCount / m.numPorts), m.laneCount / m.numPorts, m.speed)
  {
    hide Span, ModeSlots, AllDivisible, Divisible;
    var first := modes[0];
    FirstDivides(modes);
    var mid := lane + Span(first.numPorts, first.laneCount / first.numPorts);
    if k == 0 {
      assert modes[..0] == [];
      NoModes();
      ModeSlotAt(first, first.numPorts, lane, j);
    } else {
      AllButFirst(modes, k);
      SlotAt(modes[1..], mid, k - 1, j);
      assert modes[1..][k-1] == modes[k];
    }
  }

  lemma FirstDivides(modes: seq<Mode>)
    requires AllDivisible(modes) && modes != []
    ensures Divisible(modes[0]) && modes[0].numPorts > 0
  {
    assert modes[0] in modes;
  }

  /** The first lane of the j-th port of the k-th part. */
  function LaneOf(modes: seq<Mode>, k: nat, j: nat): nat
    requires AllDivisible(modes) && k < |modes|
  {
    assert modes[k] in modes;
    Used(modes[..k]) + Span(j, modes[k].laneCount / modes[k].numPorts)
  }

  lemma PortAt(p: Parent, k: nat, j: nat)
    requires Buildable(p) && k < |p.modes| && j < p.modes[k].numPorts
    ensures AllDivisible(p.modes)
    ensures var m := p.modes[k];
            var s := Slot(LaneOf(p.modes, k, j), m.laneCount / m.numPorts, m.speed);
            var i := TotalPorts(p.modes[..k]) + j;
            && i < |ConfigOf(p)| && i < |p.aliases| && s.len > 0 && s.lane + s.len <= |p.lanes| && s.lane < |p.indexes|
            && ConfigOf(p)[i] == (PortName(p.base + s.lane), PortOf(p, s, i))
  {
    hide Slots, Used, Contiguous, PortOf, PortName, AllDivisible, TotalPorts, Span, Buildable;
    BuildableFills(p);
    SlotAt(p.modes, 0, k, j);
  }

  /** The i-th port of a parent, with these lanes and this speed, field by field. */
  predicate PortIs(p: Parent, port: Port, i: nat, lane: nat, per: nat, speed: nat) {
    && i < |p.aliases| && port.alias == p.aliases[i]
    && lane < |p.indexes| && port.index == p.indexes[lane]
    && lane + per <= |p.lanes| && port.lanes == JoinOn(p.lanes[lane..lane + per], ',')
    && Canonical(port.speed) && Number(port.speed) == speed
    && Canonical(port.subport) && Number(port.subport) == (if TotalPorts(p.modes) == 1 then 0 else i + 1)
    && (port.fec <==> !p.mellanox && 50000 * per <= speed)
  }

  lemma PortText(p: Parent, s: Slot, i: nat)
    requires s.lane + s.len <= |p.lanes| && s.lane < |p.indexes| && i < |p.aliases| && s.len > 0
    ensures PortIs(p, PortOf(p, s, i), i, s.lane, s.len, s.speed)
  {
    hide JoinOn, Number, Canonical, Decimal, TotalPorts;
    DecimalCanonical(s.speed);
    DecimalCanonical(i + 1);
    ZeroText();
    PerLane(s.speed, s.len);
  }

  /**
   The j-th port of the k-th part of the mode: named after its first lane, with the next unused
   alias, its lanes and the index of the first, the speed of its part, its number among all
   ports unless it is the only one, and FEC from 50G per lane on.
   */
  predicate ChildPort(p: Parent, ports: seq<(string, Port)>, k: nat, j: nat)
    requires AllDivisible(p.modes) && k < |p.modes| && p.modes[k].numPorts > 0
  {
    var m, i, lane := p.modes[k], TotalPorts(p.modes[..k]) + j, LaneOf(p.modes, k, j);
    && i < |ports| && ports[i].0 == "Ethernet" + Decimal(p.base + lane)
    && PortIs(p, ports[i].1, i, lane, m.laneCount / m.numPorts, m.speed)
  }

  lemma PortFields(p: Parent, k: nat, j: nat)
    requires Buildable(p) && k < |p.modes| && j < p.modes[k].numPorts
    ensures AllDivisible(p.modes)
    ensures ChildPort(p, ConfigOf(p), k, j)
  {
    hide LaneOf, PortOf, PortIs, Decimal, AllDivisible, TotalPorts, Buildable, ConfigOf;
    PortAt(p, k, j);
    var m := p.modes[k];
    PortText(p, Slot(LaneOf(p.modes, k, j), m.laneCount / m.numPorts, m.speed), TotalPorts(p.modes[..k]) + j);
  }

  lemma ZeroText()
    ensures Canonical("0") && Number("0") == 0
  {
    DecimalCanonical(0);
  }

  lemma PerLane(speed: nat, per: nat)
    requires per > 0
    ensures speed / per >= 50000 <==> 50000 * per <= speed
  {
    var q, r := speed / per, speed % per;
    assert speed == per * q + r;
    if q >= 50000 {
      assert per * q == per * 50000 + per * (q - 50000);
    } else {
      assert per * q + per * (50000 - q) == per * 50000;
      assert per * (50000 - q) >= per;
    }
  }

  /** Appending a slot after the others adds its port under a new name. */
  lemma FilledGrows(p: Parent, done: seq<Slot>, s: Slot)
    requires Fillable(p, done + [s]) && forall d :: d in done ==> d.lane < s.lane
    ensures Fillable(p, done)
    ensures |done| < |p.aliases| && s.len > 0 && s.lane + s.len <= |p.lanes| && s.lane < |p.indexes|
    ensures Filled(p, done + [s]) == Put(Filled(p, done), PortName(p.base + s.lane), PortOf(p, s, |done|))
  {
    hide PortName, PortOf, Put;
    var all := done + [s];
    assert forall i :: 0 <= i < |done| ==> all[i] == done[i];
    assert all[|done|] == s;
    var ports := Filled(p, done);
    forall x | x in ports
      ensures x.0 != PortName(p.base + s.lane)
    {
      var i :| 0 <= i < |done| && ports[i] == x;
      assert done[i] in done;
      NamesDiffer(p.base + done[i].lane, p.base + s.lane);
    }
    PutNew(ports, PortName(p.base + s.lane), PortOf(p, s, |done|));
  }

  lemma {:induction false} FillablePrefix(p: Parent, a: seq<Slot>, b: seq<Slot>)
    requires Fillable(p, a + b)
    ensures Fillable(p, a)
  {
    assert forall i :: 0 <= i < |a| ==> (a + b)[i] == a[i];
  }

  lemma FillableSnoc(p: Parent, done: seq<Slot>, s: Slot)
    requires Fillable(p, done)
    ensures Fillable(p, done + [s]) <==>
            |done| < |p.aliases| && s.len > 0 && s.lane + s.len <= |p.lanes| && s.lane < |p.indexes|
  {
    var all := done + [s];
    assert all[|done|] == s;
    assert forall i :: 0 <= i < |done| ==> all[i] == done[i];
  }

  /** The ports of one part of the mode. */
  method AddPorts(p: Parent, m: Mode, before: seq<(string, Port)>, ghost done: seq<Slot>, start: nat)
    returns (r: Result<seq<(string, Port)>>, lane: nat)
    requires Divisible(m) && Fillable(p, done) && before == Filled(p, done)
    requires (forall d :: d in done ==> d.lane < start) && start + Span(m.numPorts, m.laneCount / m.numPorts) <= |p.lanes|
    ensures r.Ok? <==> Fillable(p, done + ModeSlots(m, m.numPorts, start))
    ensures r.Ok? ==> r.value == Filled(p, done + ModeSlots(m, m.numPorts, start))
    ensures r.Ok? ==> lane == start + Span(m.numPorts, m.laneCount / m.numPorts)
    ensures r.Ok? ==> forall d :: d in done + ModeSlots(m, m.numPorts, start) ==> d.lane < lane
  {
    hide Fillable, Filled, PortName, PortOf, Put, Span;
    var per := m.laneCount / m.numPorts;
    var ports := before;
    lane := start;
    ghost var slots := done;
    var left: nat := m.numPorts;
    while left > 0
      invariant slots + ModeSlots(m, left, lane) == done + ModeSlots(m, m.numPorts, start)
      invariant Fillable(p, slots) && ports == Filled(p, slots)
      invariant forall d :: d in slots ==> d.lane < lane
      invariant lane + Span(left, per) == start + Span(m.numPorts, per) && left <= m.numPorts
      decreases left
    {
      var s := Slot(lane, per, m.speed);
      SpanStep(left, per);
      ghost var rest := ModeSlots(m, left - 1, lane + per);
      assert ModeSlots(m, left, lane) == [s] + rest;
      SeqAssoc(slots, [s], rest);
      FillableSnoc(p, slots, s);
      var alias := |ports|;
      FilledSize(p, slots);
      if alias >= |p.aliases| || lane >= |p.indexes| {
        NotFillable(p, slots, s, rest);
        return Err, lane;
      }
      FilledGrows(p, slots, s);
      ports := Put(ports, PortName(p.base + lane), PortOf(p, s, alias));
      slots := slots + [s];
      lane := lane + per;
      left := left - 1;
    }
    SpanNone(per);
    SeqAssoc(slots, [], []);
    r := Ok(ports);
  }

  lemma FilledSize(p: Parent, slots: seq<Slot>)
    requires Fillable(p, slots)
    ensures |Filled(p, slots)| == |slots|
  {
  }

  lemma NotFillable(p: Parent, slots: seq<Slot>, s: Slot, rest: seq<Slot>)
    requires !Fillable(p, slots + [s])
    ensures !Fillable(p, slots + [s] + rest)
  {
    hide Fillable;
    if Fillable(p, slots + [s] + rest) {
      FillablePrefix(p, slots + [s], rest);
    }
  }

  method Totals(modes: seq<Mode>) returns (lanes: nat, ports: nat)
    ensures lanes == TotalLanes(modes) && ports == TotalPorts(modes)
  {
    lanes, ports := 0, 0;
    assert modes[0..] == modes;
    for i := 0 to |modes|
      invariant lanes + TotalLanes(modes[i..]) == TotalLanes(modes)
      invariant ports + TotalPorts(modes[i..]) == TotalPorts(modes)
    {
      assert modes[i..][0] == modes[i] && modes[i..][1..] == modes[i+1..];
      lanes, ports := lanes + modes[i].laneCount, ports + modes[i].numPorts;
    }
  }

  /** Builds the child ports, or fails where the tables are too short or a count is zero. */
  method GetConfig(p: Parent) returns (r: Result<seq<(string, Port)>>)
    ensures r.Ok? <==> Buildable(p)
    ensures Buildable(p) ==> r == Ok(ConfigOf(p))
  {
    hide Fillable, Filled, AllDivisible, Divisible, Buildable, ConfigOf, ModeSlots, Span;
    var lanesUsed, _ := Totals(p.modes);
    Needs(p);
    if lanesUsed > |p.lanes| {
      return Err;
    }
    var modes := p.modes;
    var ports: seq<(string, Port)> := [];
    var lane: nat := 0;
    ghost var done: seq<Slot> := [];
    NothingFilled(p);
    assert modes[0..] == modes;
    SeqAssoc(SlotsIfDivisible(modes), [], []);
    for i := 0 to |modes|
      invariant AllDivisible(modes) ==> AllDivisible(modes[i..])
      invariant AllDivisible(modes[i..]) ==> AllDivisible(modes)
      invariant AllDivisible(modes) ==> done + Slots(modes[i..], lane) == Slots(modes, 0)
      invariant Fillable(p, done) && ports == Filled(p, done) && forall d :: d in done ==> d.lane < lane
      invariant lane + TotalLanes(modes[i..]) <= |p.lanes|
    {
      var m := modes[i];
      assert modes[i..][0] == m && modes[i..][1..] == modes[i+1..];
      DivisibleStep(modes[i..]);
      if m.numPorts == 0 || m.laneCount / m.numPorts == 0 {
        ZeroCount(m);
        return Err;
      }
      NonZero(m);
      ProductOfQuotient(m.laneCount, m.numPorts);
      ghost var own := ModeSlots(m, m.numPorts, lane);
      var more, next := AddPorts(p, m, ports, done, lane);
      if AllDivisible(modes) {
        SeqAssoc(done, own, Slots(modes[i+1..], lane + Span(m.numPorts, m.laneCount / m.numPorts)));
      }
      if more.Err? {
        Unbuildable(p, done + own);
        return Err;
      }
      ports, lane, done := more.value, next, done + own;
    }
    NoModes();
    SeqAssoc(done, [], []);
    Built(p, done);
    r := Ok(ports);
  }

  lemma Needs(p: Parent)
    ensures Buildable(p) ==> TotalLanes(p.modes) <= |p.lanes| && AllDivisible(p.modes)
  {
  }

  function SlotsIfDivisible(modes: seq<Mode>): seq<Slot> {
    if AllDivisible(modes) then Slots(modes, 0) else []
  }

  lemma NothingFilled(p: Parent)
    ensures Fillable(p, []) && Filled(p, []) == []
  {
  }

  lemma NoModes()
    ensures AllDivisible([])
  {
  }

  lemma DivisibleStep(modes: seq<Mode>)
    requires modes != []
    ensures AllDivisible(modes) <==> Divisible(modes[0]) && AllDivisible(modes[1..])
  {
    assert modes == [modes[0]] + modes[1..];
  }

  lemma ZeroCount(m: Mode)
    requires m.numPorts == 0 || m.laneCount / m.numPorts == 0
    ensures !Divisible(m)
  {
  }

  lemma NonZero(m: Mode)
    requires m.numPorts != 0 && m.laneCount / m.numPorts != 0
    ensures Divisible(m)
  {
  }

  lemma Unbuildable(p: Parent, part: seq<Slot>)
    requires !Fillable(p, part) && (AllDivisible(p.modes) ==> part <= Slots(p.modes, 0))
    ensures !Buildable(p)
  {
    hide Fillable;
    if Buildable(p) {
      BuildableFills(p);
      var slots := Slots(p.modes, 0);
      assert slots == part + slots[|part|..];
      FillablePrefix(p, part, slots[|part|..]);
    }
  }

  lemma Built(p: Parent, slots: seq<Slot>)
    requires TotalLanes(p.modes) <= |p.lanes| && AllDivisible(p.modes) && slots == Slots(p.modes, 0) && Fillable(p, slots)
    ensures Buildable(p) && ConfigOf(p) == Filled(p, slots)
  {
  }

  // ----- several parents -----

  function Update<V>(ports: seq<(string, V)>, more: seq<(string, V)>): seq<(string, V)>
    decreases |more|
  {
    if more == [] then ports else Update(Put(ports, more[0].0, more[0].1), more[1..])
  }

  lemma RestApart<V>(ports: seq<(string, V)>, more: seq<(string, V)>)
    requires more != [] && Distinct(more) && forall x, y :: x in ports && y in more ==> x.0 != y.0
    ensures Distinct(more[1..]) && forall x, y :: x in ports + [more[0]] && y in more[1..] ==> x.0 != y.0
  {
    forall x, y | x in ports + [more[0]] && y in more[1..]
      ensures x.0 != y.0
    {
      var j :| 0 <= j < |more[1..]| && more[1..][j] == y;
      assert more[j + 1] == y && y in more;
    }
  }

  lemma {:induction false} UpdateApart<V>(ports: seq<(string, V)>, more: seq<(string, V)>)
    requires Distinct(more) && forall x, y :: x in ports && y in more ==> x.0 != y.0
    ensures Update(ports, more) == ports + more
    decreases |more|
  {
    hide Put, Distinct;
    if more == [] {
      SeqAssoc(ports, [], []);
    } else {
      var x := more[0];
      assert x in more;
      PutNew(ports, x.0, x.1);
      RestApart(ports, more);
      UpdateApart(ports + [x], more[1..]);
      assert ports + [x] + more[1..] == ports + more;
    }
  }

  /** An update keeps the ports it does not name and takes the others as they are given. */
  lemma {:induction false} UpdateGet<V>(ports: seq<(string, V)>, more: seq<(string, V)>, n: string)
    requires Distinct(more)
    ensures Get(Update(ports, more), n) == if Get(more, n).Some? then Get(more, n) else Get(ports, n)
    decreases |more|
  {
    hide Put;
    if more != [] {
      UpdateGet(Put(ports, more[0].0, more[0].1), more[1..], n);
      PutGet(ports, more[0].0, more[0].1, n);
      if n == more[0].0 {
        assert Get(more[1..], n) == None;
      }
    }
  }

  /** The ranges of two parents do not meet. */
  predicate Separate(p: Parent, q: Parent) {
    p.base + |p.lanes| <= q.base || q.base + |q.lanes| <= p.base
  }

  lemma PortsApart(p: Parent, q: Parent)
    requires Buildable(p) && Buildable(q) && Separate(p, q)
    ensures AllDivisible(p.modes) && AllDivisible(q.modes)
    ensures Fillable(p, Slots(p.modes, 0)) && Fillable(q, Slots(q.modes, 0))
    ensures forall x, y :: x in Filled(p, Slots(p.modes, 0)) && y in Filled(q, Slots(q.modes, 0)) ==> x.0 != y.0
  {
    hide Contiguous, Slots, Used, PortOf, PortName, Buildable, AllDivisible;
    BuildableFills(p);
    BuildableFills(q);
    var a, b := Slots(p.modes, 0), Slots(q.modes, 0);
    forall x, y | x in Filled(p, a) && y in Filled(q, b)
      ensures x.0 != y.0
    {
      var i :| 0 <= i < |a| && Filled(p, a)[i] == x;
      var j :| 0 <= j < |b| && Filled(q, b)[j] == y;
      ContiguousAt(a, 0, Used(p.modes), i);
      ContiguousAt(b, 0, Used(q.modes), j);
      NamesDiffer(p.base + a[i].lane, q.base + b[j].lane);
    }
  }

  predicate AllSeparate(ps: seq<Parent>) {
    && (forall p :: p in ps ==> Buildable(p))
    && forall i, j :: 0 <= i < j < |ps| ==> Separate(ps[i], ps[j])
  }

  function Union(ports: seq<(string, Port)>, ps: seq<Parent>): seq<(string, Port)>
    requires forall p :: p in ps ==> Buildable(p)
    decreases |ps|
  {
    if ps == [] then ports
    else
      assert ps[0] in ps;
      Union(Update(ports, ConfigOf(ps[0])), ps[1..])
  }

  function Together(ps: seq<Parent>): seq<(string, Port)>
    requires forall p :: p in ps ==> Buildable(p)
  {
    if ps == [] then []
    else
      assert ps[0] in ps;
      ConfigOf(ps[0]) + Together(ps[1..])
  }

  /** Parents with separate ranges never overwrite each other's ports. */
  lemma {:induction false} UnionKeepsAll(ports: seq<(string, Port)>, ps: seq<Parent>)
    requires AllSeparate(ps)
    requires forall p, x, y :: p in ps && x in ports && y in ConfigOf(p) ==> x.0 != y.0
    ensures Union(ports, ps) == ports + Together(ps)
    decreases |ps|
  {
    hide Buildable, Distinct, Separate, ConfigOf, Update;
    if ps == [] {
      assert ports + [] == ports;
    } else {
      var p := ps[0];
      assert p in ps;
      var own := ConfigOf(p);
      ConfigDistinct(p);
      UpdateApart(ports, own);
      forall q, x, y | q in ps[1..] && x in ports + own && y in ConfigOf(q)
        ensures x.0 != y.0
      {
        var j :| 0 <= j < |ps[1..]| && ps[1..][j] == q;
        assert ps[j + 1] == q && q in ps;
        ConfigsApart(p, q);
      }
      UnionKeepsAll(ports + own, ps[1..]);
      SeqAssoc(ports, own, Together(ps[1..]));
    }
  }

  /** The ports of a platform: the configurations of its parents, one update after the other. */
  method PlatformPorts(ps: seq<Parent>) returns (r: Result<seq<(string, Port)>>)
    ensures r.Ok? <==> forall p :: p in ps ==> Buildable(p)
    ensures r.Ok? ==> r.value == Union([], ps)
  {
    hide Buildable, ConfigOf, Update;
    var ports: seq<(string, Port)> := [];
    assert ps[0..] == ps;
    for i := 0 to |ps|
      invariant forall j :: 0 <= j < i ==> Buildable(ps[j])
      invariant (forall p :: p in ps ==> Buildable(p)) ==> Union(ports, ps[i..]) == Union([], ps)
    {
      assert ps[i..][0] == ps[i] && ps[i..][1..] == ps[i+1..];
      assert ps[i] in ps;
      var child := GetConfig(ps[i]);
      if child.Err? {
        return Err;
      }
      ports := Update(ports, child.value);
    }
    r := Ok(ports);
  }

  lemma ConfigDistinct(p: Parent)
    requires Buildable(p)
    ensures Distinct(ConfigOf(p))
  {
    FilledDistinct(p);
  }

  lemma ConfigsApart(p: Parent, q: Parent)
    requires Buildable(p) && Buildable(q) && Separate(p, q)
    ensures forall x, y :: x in ConfigOf(p) && y in ConfigOf(q) ==> x.0 != y.0
  {
    PortsApart(p, q);
  }
}
