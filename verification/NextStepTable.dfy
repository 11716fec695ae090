/** The prioritized table that decides what happens to a packet at the end of a pass, as the
    controller installs it for pipelines that are not folded. */
module NextStepTable {
  import opened Slots

  datatype PacketSize = MTU128 | MTU256 | MTU512 | MTU1024

  datatype PacketType = BROADCAST | RETRANSMIT | IGNORE | CONSUME0 | HARVEST7

  datatype Match<T> = Any | Exactly(value: T)

  /** A row: mask zero (Any) or an exact match on each key field, a priority (0 is highest) and an action. */
  datatype Entry = Entry(packetSize: Match<PacketSize>, packetType: Match<PacketType>, flag: Match<nat>,
                         seen: Match<bool>, priority: nat, action: Decision)

  /** `seen` stands for map_result != 0; the rows match map_result with 0 or not at all. */
  datatype Key = Key(packetSize: PacketSize, packetType: PacketType, flag: nat, seen: bool)

  const FIRST := 0
  const LAST := 1

  predicate Hits<T(==)>(m: Match<T>, value: T) {
    m.Any? || m.value == value
  }

  predicate Matches(e: Entry, k: Key) {
    Hits(e.packetSize, k.packetSize) && Hits(e.packetType, k.packetType) && Hits(e.flag, k.flag) && Hits(e.seen, k.seen)
  }

  const DEFAULT_ENTRIES: seq<Entry> := [
    Entry(Exactly(MTU128), Any, Any, Any, 0, Drop),
    Entry(Exactly(MTU256), Exactly(CONSUME0), Exactly(LAST), Any, 1, Recirculate),
    Entry(Exactly(MTU256), Exactly(CONSUME0), Any, Exactly(false), 2, FinishConsume),
    Entry(Exactly(MTU256), Exactly(CONSUME0), Exactly(FIRST), Any, 3, Recirculate),
    Entry(Exactly(MTU256), Exactly(CONSUME0), Any, Any, 4, Drop),
    Entry(Exactly(MTU512), Any, Any, Any, 5, Drop),
    Entry(Any, Exactly(HARVEST7), Exactly(LAST), Exactly(false), 22, Broadcast),
    Entry(Any, Exactly(HARVEST7), Exactly(FIRST), Exactly(false), 23, Drop),
    Entry(Any, Exactly(HARVEST7), Exactly(FIRST), Any, 24, Retransmit),
    Entry(Any, Exactly(HARVEST7), Any, Any, 25, Drop)
  ]

  /** Row i is what the hardware picks for key k: it matches, and no matching row has a better priority. */
  predicate Wins(table: seq<Entry>, k: Key, i: nat) {
    && i < |table| && Matches(table[i], k)
    && forall j :: 0 <= j < |table| && Matches(table[j], k) ==> table[i].priority <= table[j].priority
  }

  /** Priorities grow with the row, so the first matching row wins, alone. */
  lemma FirstMatchWins(table: seq<Entry>, k: Key, i: nat, j: nat)
    requires forall a, b :: 0 <= a < b < |table| ==> table[a].priority < table[b].priority
    requires i < |table| && Matches(table[i], k) && forall a :: 0 <= a < i ==> !Matches(table[a], k)
    ensures Wins(table, k, j) <==> j == i
  {
    if Wins(table, k, j) {
      assert table[j].priority <= table[i].priority;
      assert j < i || i < j || j == i;
    }
  }

  /** The row that decides for a packet after CONSUME0. */
  function ConsumeRow(flag: nat, seen: bool): nat {
    if flag == LAST then 1 else if !seen then 2 else if flag == FIRST then 3 else 4
  }

  function HarvestRow(flag: nat, seen: bool): nat {
    if !seen then (if flag == LAST then 6 else if flag == FIRST then 7 else 9)
    else if flag == FIRST then 8 else 9
  }

  /** What the table decides about 256-byte packets after CONSUME0: one row wins, with this action. */
  lemma ConsumeDecided(flag: nat, seen: bool, i: nat)
    ensures var k := Key(MTU256, CONSUME0, flag, seen);
            && Wins(DEFAULT_ENTRIES, k, ConsumeRow(flag, seen))
            && (Wins(DEFAULT_ENTRIES, k, i) ==> DEFAULT_ENTRIES[i].action == AfterConsume(flag, seen))
  {
    var k, row := Key(MTU256, CONSUME0, flag, seen), ConsumeRow(flag, seen);
    FirstMatchWins(DEFAULT_ENTRIES, k, row, row);
    FirstMatchWins(DEFAULT_ENTRIES, k, row, i);
  }

  /** And after HARVEST7. */
  lemma HarvestDecided(flag: nat, seen: bool, i: nat)
    ensures var k := Key(MTU256, HARVEST7, flag, seen);
            && Wins(DEFAULT_ENTRIES, k, HarvestRow(flag, seen))
            && (Wins(DEFAULT_ENTRIES, k, i) ==> DEFAULT_ENTRIES[i].action == AfterHarvest(flag, seen))
  {
    var k, row := Key(MTU256, HARVEST7, flag, seen), HarvestRow(flag, seen);
    FirstMatchWins(DEFAULT_ENTRIES, k, row, row);
    FirstMatchWins(DEFAULT_ENTRIES, k, row, i);
  }

  class NextStepSelector {
    /** The installed entries. */
    var table: seq<Entry>

    /** Installs the default entries, one by one. */
    constructor ()
      ensures table == DEFAULT_ENTRIES
    {
      table := [];
      new;
      var entries := DEFAULT_ENTRIES;
      for i := 0 to |entries|
        invariant table == entries[..i]
      {
        AddEntry(entries[i]);
      }
    }

    method AddEntry(e: Entry)
      modifies this
      ensures table == old(table) + [e]
    {
      table := table + [e];
    }

    /** The ternary lookup: the action of the matching entry with the best priority, or drop. */
    method Apply(k: Key) returns (action: Decision)
      ensures (exists i: nat :: Wins(table, k, i) && action == table[i].action)
              || ((forall i :: 0 <= i < |table| ==> !Matches(table[i], k)) && action == Drop)
    {
      action := Drop;
      var best: nat := |table|;
      for i := 0 to |table|
        invariant best < i <= |table| || best == |table|
        invariant best == |table| ==> action == Drop && forall j :: 0 <= j < i ==> !Matches(table[j], k)
        invariant best < |table| ==> && Matches(table[best], k) && action == table[best].action
                                     && forall j :: 0 <= j < i && Matches(table[j], k)
                                                    ==> table[best].priority <= table[j].priority
      {
        if Matches(table[i], k) && (best == |table| || table[i].priority < table[best].priority) {
          best, action := i, table[i].action;
        }
      }
      assert best < |table| ==> Wins(table, k, best);
    }

    /** The decision for a 256-byte packet. */
    method Select(packetType: PacketType, flag: nat, seen: bool) returns (action: Decision)
      requires table == DEFAULT_ENTRIES && (packetType == CONSUME0 || packetType == HARVEST7)
      ensures action == if packetType == CONSUME0 then AfterConsume(flag, seen) else AfterHarvest(flag, seen)
    {
      var k := Key(MTU256, packetType, flag, seen);
      action := Apply(k);
      ConsumeDecided(flag, seen, 0);
      HarvestDecided(flag, seen, 0);
      if i: nat :| Wins(table, k, i) && action == table[i].action {
        ConsumeDecided(flag, seen, i);
        HarvestDecided(flag, seen, i);
      }
    }
  }
}
