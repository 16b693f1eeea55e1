/** What a heap file stands for: the record in every slot of every page, and which slots are in use. */
module Sheets {
  import opened Pages

  type PageId = nat

  datatype RecordId = RecordId(page: PageId, slot: nat)

  /** The pages in the order of their ids. */
  type Sheet = seq<Leaf>

  ghost predicate IsSheet(lay: Layout, s: Sheet)
    requires lay.Ok()
  {
    forall p :: 0 <= p < |s| ==> IsLeaf(lay, s[p])
  }

  ghost predicate InSheet(s: Sheet, rid: RecordId) {
    rid.page < |s| && rid.slot < |s[rid.page].records| && rid.slot < |s[rid.page].used|
  }

  /** The record in a slot, in use or not. */
  ghost function Cell(s: Sheet, rid: RecordId): Record
    requires InSheet(s, rid)
  {
    s[rid.page].records[rid.slot]
  }

  ghost function Set(s: Sheet, rid: RecordId, r: Record): (s': Sheet)
    requires InSheet(s, rid)
  {
    var leaf := s[rid.page];
    s[rid.page := Leaf(leaf.records[rid.slot := r], leaf.used[rid.slot := true])]
  }

  ghost function Unset(s: Sheet, rid: RecordId): (s': Sheet)
    requires InSheet(s, rid)
  {
    var leaf := s[rid.page];
    s[rid.page := leaf.(used := leaf.used[rid.slot := false])]
  }

  /** The first slot that is not in use, or the number of slots. */
  ghost function FreeSlot(used: seq<bool>): (t: nat)
    ensures t <= |used| && (t < |used| ==> !used[t]) && forall i :: 0 <= i < t ==> used[i]
  {
    if used == [] || !used[0] then 0 else 1 + FreeSlot(used[1..])
  }

  ghost predicate HasRoom(leaf: Leaf) { FreeSlot(leaf.used) < |leaf.used| }

  /** The first page with a free slot, or the number of pages. */
  ghost function FreePage(s: Sheet): (p: nat)
    ensures p <= |s| && (p < |s| ==> HasRoom(s[p])) && forall q :: 0 <= q < p ==> !HasRoom(s[q])
  {
    if s == [] || HasRoom(s[0]) then 0 else 1 + FreePage(s[1..])
  }

  lemma FreeSlotIs(used: seq<bool>, t: nat)
    requires t <= |used| && (t < |used| ==> !used[t]) && forall i :: 0 <= i < t ==> used[i]
    ensures FreeSlot(used) == t
  {}

  lemma FreePageIs(s: Sheet, p: nat)
    requires p <= |s| && (p < |s| ==> HasRoom(s[p])) && forall q :: 0 <= q < p ==> !HasRoom(s[q])
    ensures FreePage(s) == p
  {}

  /** The pages a record is put into: one more if all are full. */
  ghost function Roomy(lay: Layout, s: Sheet): Sheet
    requires lay.Ok()
  {
    if FreePage(s) < |s| then s else s + [BlankLeaf(lay)]
  }

  /** The first free slot of the first page with one. */
  ghost function Spot(lay: Layout, s: Sheet): (rid: RecordId)
    requires lay.Ok()
    ensures rid.page < |Roomy(lay, s)|
  {
    RecordId(FreePage(s), FreeSlot(Roomy(lay, s)[FreePage(s)].used))
  }

  lemma SpotIsFree(lay: Layout, s: Sheet)
    requires lay.Ok() && IsSheet(lay, s)
    ensures IsSheet(lay, Roomy(lay, s)) && InSheet(Roomy(lay, s), Spot(lay, s))
    ensures !Roomy(lay, s)[FreePage(s)].used[Spot(lay, s).slot]
    ensures |Cell(Roomy(lay, s), Spot(lay, s))| == lay.Width()
  {
    LayoutFits(lay);
  }

  // ---------- The commands ----------

  datatype Command =
    Put(r: Record) | Get(rid: RecordId) | Update(rid: RecordId, r: Record) | Delete(rid: RecordId) | Reopen

  datatype Answer = Nothing | Found(r: Record)

  /** A record has at most one attribute for every place in a slot. */
  predicate Fits(lay: Layout, cmd: Command)
    requires lay.Ok()
  {
    cmd.Put? || cmd.Update? ==> |cmd.r| <= lay.Width()
  }

  /** The pages after a command: a record is written over what the slot held. */
  ghost function After(lay: Layout, s: Sheet, cmd: Command): Sheet
    requires lay.Ok() && IsSheet(lay, s) && Fits(lay, cmd)
  {
    match cmd
    case Put(r) =>
      SpotIsFree(lay, s);
      Set(Roomy(lay, s), Spot(lay, s), Over(Cell(Roomy(lay, s), Spot(lay, s)), r))
    case Update(rid, r) => if InSheet(s, rid) then Set(s, rid, Over(Cell(s, rid), r)) else s
    case Delete(rid) => if InSheet(s, rid) then Unset(s, rid) else s
    case Get(_) => s
    case Reopen => s
  }

  /** The answer to a command: a slot's record is returned whether or not the slot is in use. */
  ghost function AnswerTo(s: Sheet, cmd: Command): Answer {
    if cmd.Get? && InSheet(s, cmd.rid) then Found(Cell(s, cmd.rid)) else Nothing
  }

  lemma AfterIsSheet(lay: Layout, s: Sheet, cmd: Command)
    requires lay.Ok() && IsSheet(lay, s) && Fits(lay, cmd)
    ensures IsSheet(lay, After(lay, s, cmd))
  {
    SpotIsFree(lay, s);
  }

  predicate AllFit(lay: Layout, cmds: seq<Command>)
    requires lay.Ok()
  {
    forall i :: 0 <= i < |cmds| ==> Fits(lay, cmds[i])
  }

  /** The pages after the first n commands. */
  ghost function Run(lay: Layout, cmds: seq<Command>, n: nat): (s: Sheet)
    requires lay.Ok() && n <= |cmds| && AllFit(lay, cmds)
    ensures IsSheet(lay, s)
  {
    if n == 0 then [] else
      var s := Run(lay, cmds, n - 1);
      AfterIsSheet(lay, s, cmds[n - 1]);
      After(lay, s, cmds[n - 1])
  }

  // ---------- The map ----------

  type Store = imap<RecordId, Record>

  /** The records in use. */
  ghost function Held(s: Sheet): Store {
    imap rid: RecordId | InSheet(s, rid) && s[rid.page].used[rid.slot] :: s[rid.page].records[rid.slot]
  }

  lemma SetAdds(s: Sheet, rid: RecordId, r: Record)
    requires InSheet(s, rid)
    ensures Held(Set(s, rid, r)) == Held(s)[rid := r]
  {}

  lemma UnsetRemoves(s: Sheet, rid: RecordId)
    requires InSheet(s, rid)
    ensures Held(Unset(s, rid)) == Held(s) - {rid}
  {}

  lemma BlankAddsNothing(lay: Layout, s: Sheet)
    requires lay.Ok()
    ensures Held(Roomy(lay, s)) == Held(s)
  {
    if FreePage(s) == |s| {
      var s' := s + [BlankLeaf(lay)];
      assert forall rid: RecordId :: InSheet(s', rid) && rid.page == |s| ==> !s'[rid.page].used[rid.slot];
    }
  }

  /** What each command does to the map: a put adds one record under an id that was not in use, an
      update within the pages sets the record whether or not the id was in use, a delete removes one id. */
  lemma CommandOnMap(lay: Layout, s: Sheet, cmd: Command)
    requires lay.Ok() && IsSheet(lay, s) && Fits(lay, cmd)
    ensures InSheet(Roomy(lay, s), Spot(lay, s)) && |Cell(Roomy(lay, s), Spot(lay, s))| == lay.Width()
    ensures cmd.Put? ==>
      Spot(lay, s) !in Held(s)
      && Held(After(lay, s, cmd)) == Held(s)[Spot(lay, s) := Over(Cell(Roomy(lay, s), Spot(lay, s)), cmd.r)]
    ensures cmd.Update? ==>
      Held(After(lay, s, cmd)) ==
        if InSheet(s, cmd.rid) then Held(s)[cmd.rid := Over(Cell(s, cmd.rid), cmd.r)] else Held(s)
    ensures cmd.Delete? ==> Held(After(lay, s, cmd)) == Held(s) - {cmd.rid}
    ensures cmd.Get? || cmd.Reopen? ==> After(lay, s, cmd) == s
  {
    SpotIsFree(lay, s);
    match cmd
    case Put(r) =>
      BlankAddsNothing(lay, s);
      SetAdds(Roomy(lay, s), Spot(lay, s), Over(Cell(Roomy(lay, s), Spot(lay, s)), r));
      assert Spot(lay, s) !in Held(Roomy(lay, s));
    case Update(rid, r) => if InSheet(s, rid) { SetAdds(s, rid, Over(Cell(s, rid), r)); }
    case Delete(rid) =>
      if InSheet(s, rid) { UnsetRemoves(s, rid); } else { assert Held(s) - {rid} == Held(s); }
    case _ =>
  }

  ghost function MapAnswer(m: Store, rid: RecordId): Answer { if rid in m then Found(m[rid]) else Nothing }

  /** Reading a slot within the pages is right exactly when the slot is in use. */
  lemma GetIsRightIff(s: Sheet, rid: RecordId)
    ensures AnswerTo(s, Get(rid)) == MapAnswer(Held(s), rid) <==> rid in Held(s) || !InSheet(s, rid)
  {}

  /** A deleted record is gone from the map and is still the answer to a get. */
  lemma DeletedIsStillRead(lay: Layout, s: Sheet, rid: RecordId)
    requires lay.Ok() && IsSheet(lay, s) && rid in Held(s)
    ensures rid !in Held(After(lay, s, Delete(rid)))
    ensures AnswerTo(After(lay, s, Delete(rid)), Get(rid)) == Found(Held(s)[rid])
  {}

  // ---------- The last record written ----------

  /** The place a command writes a record to. */
  ghost predicate WritesTo(lay: Layout, s: Sheet, cmd: Command, rid: RecordId)
    requires lay.Ok()
  {
    (cmd.Put? && rid == Spot(lay, s)) || (cmd.Update? && rid == cmd.rid && InSheet(s, rid))
  }

  /** What the first n commands wrote to a place, each over what was there, starting from an empty record. */
  ghost function LastWritten(lay: Layout, cmds: seq<Command>, n: nat, rid: RecordId): (r: Record)
    requires lay.Ok() && n <= |cmds| && AllFit(lay, cmds)
    ensures |r| == lay.Width()
  {
    if n == 0 then BlankRecord(lay.Width())
    else
      var was := LastWritten(lay, cmds, n - 1, rid);
      if WritesTo(lay, Run(lay, cmds, n - 1), cmds[n - 1], rid) then Over(was, cmds[n - 1].r) else was
  }

  ghost function CellOrBlank(lay: Layout, s: Sheet, rid: RecordId): Record
    requires lay.Ok()
  {
    if InSheet(s, rid) then Cell(s, rid) else BlankRecord(lay.Width())
  }

  lemma OtherPlaces(lay: Layout, s: Sheet, cmd: Command, rid: RecordId)
    requires lay.Ok() && IsSheet(lay, s) && Fits(lay, cmd) && InSheet(After(lay, s, cmd), rid)
    ensures |CellOrBlank(lay, s, rid)| == lay.Width()
    ensures Cell(After(lay, s, cmd), rid)
         == if WritesTo(lay, s, cmd, rid) then Over(CellOrBlank(lay, s, rid), cmd.r) else CellOrBlank(lay, s, rid)
  {
    if cmd.Put? { SpotIsFree(lay, s); }
  }

  lemma Unreached(lay: Layout, s: Sheet, cmd: Command, rid: RecordId)
    requires lay.Ok() && IsSheet(lay, s) && Fits(lay, cmd) && rid.slot < lay.Capacity()
    requires !InSheet(After(lay, s, cmd), rid)
    ensures !InSheet(s, rid) && !WritesTo(lay, s, cmd, rid)
  {
    if cmd.Put? { SpotIsFree(lay, s); }
  }

  lemma {:induction false} NotYetWritten(lay: Layout, cmds: seq<Command>, n: nat, rid: RecordId)
    requires lay.Ok() && n <= |cmds| && AllFit(lay, cmds) && rid.slot < lay.Capacity()
    requires !InSheet(Run(lay, cmds, n), rid)
    ensures LastWritten(lay, cmds, n, rid) == BlankRecord(lay.Width())
  {
    if n > 0 {
      var s := Run(lay, cmds, n - 1);
      Unreached(lay, s, cmds[n - 1], rid);
      NotYetWritten(lay, cmds, n - 1, rid);
    }
  }

  /** After any run, reading a slot returns what was last written there, deleted or not. */
  lemma {:induction false} GetIsLastWritten(lay: Layout, cmds: seq<Command>, n: nat, rid: RecordId)
    requires lay.Ok() && n <= |cmds| && AllFit(lay, cmds) && InSheet(Run(lay, cmds, n), rid)
    ensures AnswerTo(Run(lay, cmds, n), Get(rid)) == Found(LastWritten(lay, cmds, n, rid))
  {
    if n > 0 {
      var s := Run(lay, cmds, n - 1);
      OtherPlaces(lay, s, cmds[n - 1], rid);
      if InSheet(s, rid) { GetIsLastWritten(lay, cmds, n - 1, rid); } else { NotYetWritten(lay, cmds, n - 1, rid); }
    }
  }
}
