/** One whole relay of a block: announced in compact form, completed on request, rebuilt as it was. */
module BlockRelay {
  import opened Wrappers
  import opened CompactBlocks
  import opened CompactRelay

  // ---------- differential index lists ----------

  const MAX64 := 0xffff_ffff_ffff_ffff
  /** The largest compact size a reader accepts. */
  const MAX_SIZE := 0x0200_0000

  /** The differences that are written for a list of values, from the shift reached so far. */
  function Differences(vs: seq<nat>, shift: nat): Option<seq<nat>> {
    if vs == [] then Some([])
    else if vs[0] < shift || vs[0] >= MAX64 then None
    else
      var rest := Differences(vs[1..], vs[0] + 1);
      if rest.None? then None else Some([vs[0] - shift] + rest.value)
  }

  /** The values that are read back, each at most `top`. */
  function Values(ns: seq<nat>, shift: nat, top: nat): Option<seq<nat>> {
    if ns == [] then Some([])
    else
      var at := (shift + ns[0]) % (MAX64 + 1);
      if ns[0] > MAX_SIZE || at < ns[0] || at >= MAX64 || at > top then None
      else
        var rest := Values(ns[1..], at + 1, top);
        if rest.None? then None else Some([at] + rest.value)
  }

  predicate Ascending(vs: seq<nat>) {
    forall i, j :: 0 <= i < j < |vs| ==> vs[i] < vs[j]
  }

  /** Just the ascending lists of values below 2^64 - 1 can be written. */
  lemma {:induction false} WritableIff(vs: seq<nat>, shift: nat)
    ensures Differences(vs, shift).Some? <==> Ascending(vs) && forall i :: 0 <= i < |vs| ==> shift <= vs[i] < MAX64
  {
    if vs != [] {
      WritableIff(vs[1..], vs[0] + 1);
      if Differences(vs, shift).Some? {
        forall i | 0 <= i < |vs|
          ensures shift <= vs[i] < MAX64 && (i > 0 ==> vs[0] < vs[i])
        {
          assert i > 0 ==> vs[1..][i - 1] == vs[i];
        }
        forall i, j | 0 <= i < j < |vs|
          ensures vs[i] < vs[j]
        {
          assert i > 0 ==> vs[1..][i - 1] < vs[1..][j - 1];
        }
      }
    }
  }

  /** Each is the distance from the place after the value before it. */
  lemma {:induction false} DifferencesAt(vs: seq<nat>, shift: nat, i: nat)
    requires Differences(vs, shift).Some? && i < |vs|
    ensures var ns := Differences(vs, shift).value;
      |ns| == |vs| && vs[i] == ns[i] + if i == 0 then shift else vs[i - 1] + 1
  {
    if |vs| > 1 {
      DifferencesAt(vs[1..], vs[0] + 1, if i > 0 then i - 1 else 0);
    } else {
      assert vs[1..] == [];
    }
  }

  /** What is written for values up to `top` reads back as those values. */
  lemma {:induction false} WriteRead(vs: seq<nat>, shift: nat, top: nat)
    requires Differences(vs, shift).Some? && top <= MAX_SIZE && forall i :: 0 <= i < |vs| ==> vs[i] <= top
    ensures Values(Differences(vs, shift).value, shift, top) == Some(vs)
  {
    if vs != [] {
      WriteRead(vs[1..], vs[0] + 1, top);
      var rest := Differences(vs[1..], vs[0] + 1).value;
      assert ([vs[0] - shift] + rest)[1..] == rest;
      assert [vs[0]] + vs[1..] == vs;
    }
  }

  /** What reads as values is what would be written for them. */
  lemma {:induction false} ReadWrite(ns: seq<nat>, shift: nat, top: nat)
    requires shift <= MAX64 && Values(ns, shift, top).Some?
    ensures Differences(Values(ns, shift, top).value, shift) == Some(ns)
  {
    if ns != [] {
      var at := (shift + ns[0]) % (MAX64 + 1);
      assert at == shift + ns[0];
      ReadWrite(ns[1..], at + 1, top);
      var rest := Values(ns[1..], at + 1, top).value;
      assert ([at] + rest)[1..] == rest;
      assert [ns[0]] + ns[1..] == ns;
    }
  }

  class DifferenceFormatter {
    var mShift: nat

    constructor ()
      ensures mShift == 0
    {
      mShift := 0;
    }

    method Ser(v: nat) returns (n: Option<nat>)
      modifies this
      ensures n == (if v < old(mShift) || v >= MAX64 then None else Some(v - old(mShift)))
      ensures mShift == if n.None? then old(mShift) else v + 1
    {
      if v < mShift || v >= MAX64 {
        return None;
      }
      n := Some(v - mShift);
      mShift := v + 1;
    }

    method Unser(n: nat, top: nat) returns (v: Option<nat>)
      modifies this
      ensures var at := (old(mShift) + n) % (MAX64 + 1);
        v == if n > MAX_SIZE || at < n || at >= MAX64 || at > top then None else Some(at)
      ensures v.Some? ==> mShift == v.value + 1
    {
      if n > MAX_SIZE {
        return None;
      }
      mShift := (mShift + n) % (MAX64 + 1);
      if mShift < n || mShift >= MAX64 || mShift > top {
        return None;
      }
      v := Some(mShift);
      mShift := mShift + 1;
    }
  }

  method WriteIndexes(vs: seq<nat>) returns (ns: Option<seq<nat>>)
    ensures ns == Differences(vs, 0)
  {
    var formatter := new DifferenceFormatter();
    var out := [];
    assert vs[0..] == vs;
    PrependNone(Differences(vs, 0));
    for i := 0 to |vs|
      invariant fresh(formatter)
      invariant Differences(vs, 0) == Prepend(out, Differences(vs[i..], formatter.mShift))
    {
      assert vs[i..][1..] == vs[i + 1..];
      var n := formatter.Ser(vs[i]);
      if n.None? {
        return None;
      }
      ghost var rest := Differences(vs[i + 1..], vs[i] + 1);
      assert rest.Some? ==> out + ([n.value] + rest.value) == (out + [n.value]) + rest.value;
      out := out + [n.value];
    }
    assert vs[|vs|..] == [] && out + [] == out;
    ns := Some(out);
  }

  method ReadIndexes(ns: seq<nat>, top: nat) returns (vs: Option<seq<nat>>)
    ensures vs == Values(ns, 0, top)
  {
    var formatter := new DifferenceFormatter();
    var out := [];
    assert ns[0..] == ns;
    PrependNone(Values(ns, 0, top));
    for i := 0 to |ns|
      invariant fresh(formatter)
      invariant Values(ns, 0, top) == Prepend(out, Values(ns[i..], formatter.mShift, top))
    {
      assert ns[i..][1..] == ns[i + 1..];
      var v := formatter.Unser(ns[i], top);
      if v.None? {
        return None;
      }
      ghost var rest := Values(ns[i + 1..], v.value + 1, top);
      assert rest.Some? ==> out + ([v.value] + rest.value) == (out + [v.value]) + rest.value;
      out := out + [v.value];
    }
    assert ns[|ns|..] == [] && out + [] == out;
    vs := Some(out);
  }

  function Prepend(out: seq<nat>, rest: Option<seq<nat>>): Option<seq<nat>> {
    if rest.None? then None else Some(out + rest.value)
  }

  lemma PrependNone(rest: Option<seq<nat>>)
    ensures Prepend([], rest) == rest
  {
    assert rest.Some? ==> [] + rest.value == rest.value;
  }

  // ---------- the compact form of a block ----------

  /** Sends the coinbase along and names every other transaction by its short id. */
  method Compact(header: Header, vtx: seq<Tx>, sid: nat -> nat) returns (c: CompactBlock)
    requires |vtx| > 0
    ensures c.header == header && c.prefilled == [Prefilled(0, vtx[0])]
    ensures |c.shortids| == |vtx| - 1 && forall i :: 1 <= i < |vtx| ==> c.shortids[i - 1] == sid(vtx[i].wtxid)
  {
    var shortids: seq<nat> := seq(|vtx| - 1, _ => 0);
    for i := 1 to |vtx|
      invariant |shortids| == |vtx| - 1 && forall k :: 1 <= k < i ==> shortids[k - 1] == sid(vtx[k].wtxid)
    {
      shortids := shortids[i - 1 := sid(vtx[i].wtxid)];
    }
    c := CompactBlock(header, shortids, [Prefilled(0, vtx[0])]);
  }

  function Indexes(pre: seq<Prefilled>): (ns: seq<nat>)
    ensures |ns| == |pre|
  {
    seq(|pre|, i requires 0 <= i < |pre| => pre[i].index as nat)
  }

  /** The short ids, in order, of the first `n` transactions except those at the given positions. */
  function OtherIds(vtx: seq<Tx>, positions: seq<nat>, sid: nat -> nat, n: nat): seq<nat>
    requires n <= |vtx|
  {
    if n == 0 then []
    else OtherIds(vtx, positions, sid, n - 1) + if n - 1 in positions then [] else [sid(vtx[n - 1].wtxid)]
  }

  /**
   A compact block announces a transaction list: those at some positions are sent along, with the
   positions written as differences, and all others are named by short id in order.
   */
  ghost predicate Announces(c: CompactBlock, vtx: seq<Tx>, positions: seq<nat>, sid: nat -> nat) {
    && Differences(positions, 0) == Some(Indexes(c.prefilled)) && |positions| == |c.prefilled|
    && (forall i :: 0 <= i < |positions| ==> positions[i] < |vtx|)
    && (forall i :: 0 <= i < |positions| ==> c.prefilled[i].tx == vtx[positions[i]] && !vtx[positions[i]].isNull)
    && c.shortids == OtherIds(vtx, positions, sid, |vtx|)
  }

  lemma CompactAnnounces(c: CompactBlock, vtx: seq<Tx>, sid: nat -> nat)
    requires |vtx| > 0 && !vtx[0].isNull && c.prefilled == [Prefilled(0, vtx[0])]
    requires |c.shortids| == |vtx| - 1 && forall i :: 1 <= i < |vtx| ==> c.shortids[i - 1] == sid(vtx[i].wtxid)
    ensures Announces(c, vtx, [0], sid)
  {
    var zero: seq<nat> := [0];
    assert zero[1..] == [] && Differences([], 1) == Some([]);
    assert zero + [] == Indexes(c.prefilled);
    assert Differences(zero, 0) == Some(zero + []);
    AllButFirst(c, vtx, sid, |vtx|);
    assert c.shortids[..|vtx| - 1] == c.shortids;
  }

  lemma {:induction false} AllButFirst(c: CompactBlock, vtx: seq<Tx>, sid: nat -> nat, n: nat)
    requires 1 <= n <= |vtx| && |c.shortids| == |vtx| - 1
    requires forall i :: 1 <= i < |vtx| ==> c.shortids[i - 1] == sid(vtx[i].wtxid)
    ensures OtherIds(vtx, [0], sid, n) == c.shortids[..n - 1]
  {
    if n > 1 {
      AllButFirst(c, vtx, sid, n - 1);
    } else {
      assert OtherIds(vtx, [0], sid, 0) == [];
    }
  }

  /** A list of differences stands for one list of positions: that of the prefilled transactions. */
  lemma {:induction false} PositionIs(c: CompactBlock, vs: seq<nat>, i: nat)
    requires |vs| == |c.prefilled| && Differences(vs, 0) == Some(Indexes(c.prefilled)) && i < |vs|
    ensures PosOf(c, i) == vs[i]
  {
    DifferencesAt(vs, 0, i);
    assert Indexes(c.prefilled)[i] == c.prefilled[i].index;
    if i > 0 {
      PositionIs(c, vs, i - 1);
    } else {
      assert Pos(c.prefilled, 0) == -1;
    }
  }

  /** Every compact block has such a list of positions. */
  lemma PositionsWritable(c: CompactBlock, vs: seq<nat>)
    requires |vs| == |c.prefilled| && forall i :: 0 <= i < |vs| ==> vs[i] == PosOf(c, i) < MAX64
    ensures Differences(vs, 0) == Some(Indexes(c.prefilled))
  {
    forall i, j | 0 <= i < j < |vs|
      ensures vs[i] < vs[j]
    {
      PosRises(c.prefilled, i + 1, j + 1);
    }
    WritableIff(vs, 0);
    var ns := Differences(vs, 0).value;
    if vs != [] {
      DifferencesAt(vs, 0, 0);
    }
    forall i | 0 <= i < |vs|
      ensures ns[i] == c.prefilled[i].index
    {
      DifferencesAt(vs, 0, i);
      if i > 0 {
        assert Pos(c.prefilled, i + 1) == Pos(c.prefilled, i) + c.prefilled[i].index + 1;
      } else {
        assert Pos(c.prefilled, 1) == Pos(c.prefilled, 0) + c.prefilled[0].index + 1;
      }
    }
    assert ns == Indexes(c.prefilled);
  }

  /** All positions but the prefilled ones have an id. */
  lemma {:induction false} OthersCount(vtx: seq<Tx>, positions: seq<nat>, sid: nat -> nat, n: nat, k: nat)
    requires n <= |vtx| && k <= |positions| && Ascending(positions)
    requires forall i :: 0 <= i < |positions| ==> (positions[i] < n <==> i < k)
    ensures |OtherIds(vtx, positions, sid, n)| == n - k
  {
    if n > 0 {
      if n - 1 in positions {
        var i :| 0 <= i < |positions| && positions[i] == n - 1;
        assert i < k && positions[k - 1] < n;
        OthersCount(vtx, positions, sid, n - 1, k - 1);
      } else {
        OthersCount(vtx, positions, sid, n - 1, k);
      }
    }
  }

  lemma {:induction false} RoomAbove(positions: seq<nat>, n: nat, i: nat)
    requires Ascending(positions) && i < |positions| && forall j :: 0 <= j < |positions| ==> positions[j] < n
    ensures positions[i] <= n - |positions| + i
    decreases |positions| - i
  {
    if i + 1 < |positions| {
      RoomAbove(positions, n, i + 1);
    }
  }

  /** A compact block stands for a transaction list: its prefilled ones in place, short ids for the rest in order. */
  ghost predicate Describes(c: CompactBlock, vtx: seq<Tx>, sid: nat -> nat) {
    && |vtx| == c.BlockTxCount() && PrefillsOk(c, |c.prefilled|)
    && (forall i :: 0 <= i < |c.prefilled| ==> PosOf(c, i) < |vtx| && vtx[PosOf(c, i)] == c.prefilled[i].tx)
    && (forall p :: 0 <= p < |vtx| && Layout(c, |c.prefilled|)[p].None? ==> Named(c, vtx, sid, p))
  }

  ghost predicate Named(c: CompactBlock, vtx: seq<Tx>, sid: nat -> nat, p: nat)
    requires PrefillsOk(c, |c.prefilled|) && p < |vtx| == c.BlockTxCount()
  {
    var k := Rank(Layout(c, |c.prefilled|), p);
    k < |c.shortids| && c.shortids[k] == sid(vtx[p].wtxid)
  }

  /** What is announced is what the slots and the ids stand for. */
  lemma AnnouncedDescribed(c: CompactBlock, vtx: seq<Tx>, positions: seq<nat>, sid: nat -> nat)
    requires Announces(c, vtx, positions, sid) && |vtx| <= 0xffff
    ensures Describes(c, vtx, sid)
  {
    WritableIff(positions, 0);
    OthersCount(vtx, positions, sid, |vtx|, |positions|);
    hide Differences, Layout, Rank, PosOf, OtherIds;
    forall i | 0 <= i < |c.prefilled|
      ensures PosOf(c, i) == positions[i] && PrefillOk(c, i)
    {
      PositionIs(c, positions, i);
      RoomAbove(positions, |vtx|, i);
    }
    var layout := Layout(c, |c.prefilled|);
    forall p | 0 <= p < |vtx|
      ensures layout[p].None? <==> p !in positions
    {
      LayoutAt(c, |c.prefilled|, p);
    }
    forall p | 0 <= p < |vtx| && layout[p].None?
      ensures Named(c, vtx, sid, p)
    {
      IdAtRank(layout, vtx, positions, sid, p, |vtx|);
    }
  }

  /** The short id of an empty slot is the one at its rank. */
  lemma {:induction false} IdAtRank(
    layout: seq<Option<Tx>>, vtx: seq<Tx>, positions: seq<nat>, sid: nat -> nat, p: nat, n: nat)
    requires |layout| == |vtx| && p < n <= |vtx| && p !in positions
    requires forall q :: 0 <= q < |vtx| ==> (layout[q].None? <==> q !in positions)
    ensures Rank(layout, p) < |OtherIds(vtx, positions, sid, n)|
    ensures OtherIds(vtx, positions, sid, n)[Rank(layout, p)] == sid(vtx[p].wtxid)
  {
    if p < n - 1 {
      IdAtRank(layout, vtx, positions, sid, p, n - 1);
    } else {
      RankIds(layout, vtx, positions, sid, p);
    }
  }

  lemma {:induction false} RankIds(
    layout: seq<Option<Tx>>, vtx: seq<Tx>, positions: seq<nat>, sid: nat -> nat, n: nat)
    requires |layout| == |vtx| && n <= |vtx|
    requires forall q :: 0 <= q < |vtx| ==> (layout[q].None? <==> q !in positions)
    ensures Rank(layout, n) == |OtherIds(vtx, positions, sid, n)|
  {
    if n > 0 {
      RankStep(layout, n - 1);
      hide Rank;
      RankIds(layout, vtx, positions, sid, n - 1);
    }
  }

  /** No two different transactions of the block and of those known share a short id. */
  ghost predicate NoCollisions(vtx: seq<Tx>, known: seq<Tx>, sid: nat -> nat) {
    forall t, u :: t in vtx + known && u in vtx + known && sid(t.wtxid) == sid(u.wtxid) ==> t == u
  }

  /** Without collisions every filled slot holds the block's own transaction, and every one known is in place. */
  lemma Faithful(c: CompactBlock, vtx: seq<Tx>, pool: seq<Tx>, extra: seq<Option<Tx>>, sid: nat -> nat,
    slots: seq<Option<Tx>>, count: nat, p: nat)
    requires Describes(c, vtx, sid) && NoCollisions(vtx, pool + Present(extra), sid) && p < |vtx|
    requires Completed(c, pool, extra, sid, slots, count)
    ensures |slots| == |vtx| && (slots[p].Some? ==> slots[p].value == vtx[p])
    ensures vtx[p] in pool + Present(extra) ==> slots[p].Some?
  {
    hide Rank, Present, PosOf;
    var layout := Layout(c, |c.prefilled|);
    LayoutAt(c, |c.prefilled|, p);
    hide Layout;
    var known := pool + Present(extra);
    assert vtx[p] in vtx + known;
    if layout[p].None? {
      assert Named(c, vtx, sid, p) && FinalAt(layout, c.shortids, slots, known, sid, p);
      if slots[p].Some? {
        assert slots[p].value in vtx + known;
      } else if vtx[p] in known {
        NoClash(vtx, known, sid, vtx[p]);
      }
    }
  }

  lemma NoClash(vtx: seq<Tx>, known: seq<Tx>, sid: nat -> nat, t: Tx)
    requires NoCollisions(vtx, known, sid)
    ensures !Clash(known, sid(t.wtxid), sid)
  {
    forall a, b | a in known && b in known && sid(a.wtxid) == sid(b.wtxid)
      ensures a == b
    {
      assert a in vtx + known && b in vtx + known;
    }
  }

  // ---------- the request and the answer ----------

  /** The positions of the empty slots. */
  function Wanted(slots: seq<Option<Tx>>): seq<nat> {
    if slots == [] then []
    else
      var n := |slots| - 1;
      Wanted(slots[..n]) + if slots[n].None? then [n] else []
  }

  lemma {:induction false} WantedFacts(slots: seq<Option<Tx>>)
    ensures |Wanted(slots)| == CountNone(slots) && Ascending(Wanted(slots))
    ensures forall i :: 0 <= i < |Wanted(slots)| ==> Wanted(slots)[i] < |slots|
  {
    if slots != [] {
      WantedFacts(slots[..|slots| - 1]);
    }
  }

  method Request(b: PartiallyDownloadedBlock) returns (indexes: seq<nat>)
    requires b.header != NullHeader
    ensures indexes == Wanted(b.txnAvailable)
  {
    indexes := [];
    var n := |b.txnAvailable|;
    assert b.txnAvailable[..0] == [];
    for i := 0 to n
      invariant indexes == Wanted(b.txnAvailable[..i])
    {
      assert b.txnAvailable[..i + 1][..i] == b.txnAvailable[..i];
      if !b.IsTxAvailable(i) {
        indexes := indexes + [i];
      }
    }
    assert b.txnAvailable[..n] == b.txnAvailable;
  }

  /** The answer to a request; none if an index is beyond the block. */
  method Answer(vtx: seq<Tx>, indexes: seq<nat>) returns (txn: Option<seq<Tx>>)
    ensures txn.Some? <==> forall i :: 0 <= i < |indexes| ==> indexes[i] < |vtx|
    ensures txn.Some? ==> |txn.value| == |indexes| && forall i :: 0 <= i < |indexes| ==> txn.value[i] == vtx[indexes[i]]
  {
    var out := [];
    for i := 0 to |indexes|
      invariant |out| == i && forall k :: 0 <= k < i ==> indexes[k] < |vtx| && out[k] == vtx[indexes[k]]
    {
      if indexes[i] >= |vtx| {
        return None;
      }
      out := out + [vtx[indexes[i]]];
    }
    txn := Some(out);
  }

  lemma {:induction false} WantedAt(slots: seq<Option<Tx>>, p: nat)
    requires p < |slots| && slots[p].None?
    ensures Rank(slots, p) < |Wanted(slots)| && Wanted(slots)[Rank(slots, p)] == p
  {
    var n := |slots| - 1;
    if p < n {
      WantedAt(slots[..n], p);
      assert slots[..n][..p] == slots[..p];
    } else {
      WantedFacts(slots[..n]);
    }
  }

  lemma {:induction false} FilledAtPos(slots: seq<Option<Tx>>, missing: seq<Tx>, p: nat)
    requires CountNone(slots) <= |missing| && p < |slots|
    ensures slots[p].Some? ==> Filled(slots, missing)[p] == slots[p].value
    ensures slots[p].None? ==> Rank(slots, p) < |missing| && Filled(slots, missing)[p] == missing[Rank(slots, p)]
  {
    var n := |slots| - 1;
    if p < n {
      FilledAtPos(slots[..n], missing, p);
      assert slots[..n][..p] == slots[..p];
    }
  }

  /** Correct slots and the wanted transactions in order make up the block. */
  lemma Rebuilt(slots: seq<Option<Tx>>, vtx: seq<Tx>, missing: seq<Tx>)
    requires |slots| == |vtx| && forall p :: 0 <= p < |slots| && slots[p].Some? ==> slots[p].value == vtx[p]
    requires |missing| == |Wanted(slots)| == CountNone(slots)
    requires forall i :: 0 <= i < |missing| ==> Wanted(slots)[i] < |vtx| && missing[i] == vtx[Wanted(slots)[i]]
    ensures Filled(slots, missing) == vtx
  {
    hide Filled, Wanted, Rank;
    forall p | 0 <= p < |slots|
      ensures Filled(slots, missing)[p] == vtx[p]
    {
      FilledAtPos(slots, missing, p);
      if slots[p].None? {
        WantedAt(slots, p);
      }
    }
  }

  /** The short ids of a block with the coinbase sent along. */
  function ShortIds(vtx: seq<Tx>, sid: nat -> nat): seq<nat>
    requires |vtx| > 0
  {
    seq<nat>(|vtx| - 1, i requires 0 <= i < |vtx| - 1 => sid(vtx[i + 1].wtxid))
  }

  /**
   A whole relay. Unless two short ids of the block are equal or a bucket of the id map
   is too full, the receiver ends with the block that was sent and the verdict of its check.
   */
  method Relay(header: Header, vtx: seq<Tx>, pool: seq<Tx>, extra: seq<Option<Tx>>, sid: nat -> nat,
    crowded: nat -> bool, check: (Header, seq<Tx>) -> CheckResult)
    returns (r: ReadStatus, got: seq<Tx>)
    requires header != NullHeader && 0 < |vtx| <= 0xffff && !vtx[0].isNull
    requires DistinctHashes(pool) && NoCollisions(vtx, pool + Present(extra), sid)
    ensures Distinct(ShortIds(vtx, sid)) && (forall i: nat :: i < |vtx| - 1 ==> !crowded(i)) ==>
            got == vtx && r == Verdict(check(header, vtx))
    ensures !(Distinct(ShortIds(vtx, sid)) && forall i: nat :: i < |vtx| - 1 ==> !crowded(i)) ==> r == Failed
  {
    var c := Compact(header, vtx, sid);
    assert c.shortids == ShortIds(vtx, sid);
    CompactAnnounces(c, vtx, sid);
    hide Announces, Distinct, NoCollisions, DistinctHashes, Present;
    r, got := Receive(c, vtx, [0], pool, extra, sid, crowded, check);
  }

  /** The same for any compact block, whatever transactions its sender chose to send along. */
  method Receive(c: CompactBlock, vtx: seq<Tx>, ghost positions: seq<nat>, pool: seq<Tx>, extra: seq<Option<Tx>>,
    sid: nat -> nat, crowded: nat -> bool, check: (Header, seq<Tx>) -> CheckResult)
    returns (r: ReadStatus, got: seq<Tx>)
    requires c.header != NullHeader && 0 < |vtx| <= 0xffff && Announces(c, vtx, positions, sid)
    requires DistinctHashes(pool) && NoCollisions(vtx, pool + Present(extra), sid)
    ensures Distinct(c.shortids) && (forall i: nat :: i < |c.shortids| ==> !crowded(i)) ==>
            got == vtx && r == Verdict(check(c.header, vtx))
    ensures !(Distinct(c.shortids) && forall i: nat :: i < |c.shortids| ==> !crowded(i)) ==> r == Failed
  {
    AnnouncedDescribed(c, vtx, positions, sid);
    assert |vtx| == c.BlockTxCount() && PrefillsOk(c, |c.prefilled|);
    hide Describes, Completed, Distinct, NoCollisions, DistinctHashes, Present, Announces;
    var b := new PartiallyDownloadedBlock();
    r := b.InitData(c, pool, extra, sid, crowded);
    if r != Ok {
      return r, [];
    }
    ghost var slots := b.txnAvailable;
    SlotsCorrect(c, vtx, pool, extra, sid, slots, b.mempoolCount);
    WantedFacts(slots);
    var indexes := Request(b);
    hide Wanted, Filled, CountNone;
    WritableIff(indexes, 0);
    var written := WriteIndexes(indexes);
    WriteRead(indexes, 0, 0xffff);
    var asked := ReadIndexes(written.value, 0xffff);
    var txn := Answer(vtx, asked.value);
    Rebuilt(slots, vtx, txn.value);
    r, got := b.FillBlock(txn.value, check);
  }

  lemma SlotsCorrect(c: CompactBlock, vtx: seq<Tx>, pool: seq<Tx>, extra: seq<Option<Tx>>, sid: nat -> nat,
    slots: seq<Option<Tx>>, count: nat)
    requires Describes(c, vtx, sid) && NoCollisions(vtx, pool + Present(extra), sid) && |vtx| > 0
    requires Completed(c, pool, extra, sid, slots, count)
    ensures |slots| == |vtx| && forall p :: 0 <= p < |slots| && slots[p].Some? ==> slots[p].value == vtx[p]
  {
    Faithful(c, vtx, pool, extra, sid, slots, count, 0);
    forall p | 0 <= p < |slots| && slots[p].Some?
      ensures slots[p].value == vtx[p]
    {
      Faithful(c, vtx, pool, extra, sid, slots, count, p);
    }
  }
}
