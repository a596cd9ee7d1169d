/** A schedule-number table built service by service, as both assigners
    build theirs, and how `get_schedule_number_from_block_id` answers from
    it. */
module ScheduleTables {
  import opened Results
  import opened Collections
  import opened Tables
  import opened Lookups

  /** Every service of the calendar got its rows, each row carries the
      service's id, and no service names a block twice. */
  ghost predicate WellFormed(rs: seq<Result<seq<Entry>>>, services: seq<string>) {
    && |rs| == |services|
    && (forall i :: 0 <= i < |rs| ==> rs[i].Ok?)
    && (forall i, e :: 0 <= i < |rs| && e in rs[i].value ==> e.serviceId == services[i])
    && (forall i :: 0 <= i < |rs| ==> NoDuplicates(EntryBlocks(rs[i].value)))
  }

  /** With each service listed once, no two rows of the joined table share
      a block id and a service id. */
  lemma JoinedKeysDistinct(rs: seq<Result<seq<Entry>>>, services: seq<string>)
    requires WellFormed(rs, services) && NoDuplicates(services)
    ensures JoinAll(rs).Ok?
    ensures forall p, q :: 0 <= p < q < |JoinAll(rs).value| ==>
              || JoinAll(rs).value[p].blockId != JoinAll(rs).value[q].blockId
              || JoinAll(rs).value[p].serviceId != JoinAll(rs).value[q].serviceId
  {
    var table := JoinAll(rs).value;
    forall p, q | 0 <= p < q < |table|
      ensures table[p].blockId != table[q].blockId || table[p].serviceId != table[q].serviceId
    {
      var i := ServiceOfRow(rs, services, table[p]);
      var j := ServiceOfRow(rs, services, table[q]);
      if table[p].blockId == table[q].blockId && table[p].serviceId == table[q].serviceId {
        assert i == j;
        SameBlockSameRow(rs[i].value, table[p], table[q]);
        JoinedNoDuplicates(rs, services);
      }
    }
  }

  /** The service a row of the joined table came from. */
  lemma ServiceOfRow(rs: seq<Result<seq<Entry>>>, services: seq<string>, e: Entry) returns (i: nat)
    requires WellFormed(rs, services) && NoDuplicates(services)
    requires JoinAll(rs).Ok? && e in JoinAll(rs).value
    ensures i < |rs| && e in rs[i].value && services[i] == e.serviceId
    ensures forall j :: 0 <= j < |services| && services[j] == e.serviceId ==> j == i
  {
    i :| 0 <= i < |rs| && e in rs[i].value;
  }

  /** Within one service, the block id determines the row. */
  lemma SameBlockSameRow(rows: seq<Entry>, e1: Entry, e2: Entry)
    requires NoDuplicates(EntryBlocks(rows))
    requires e1 in rows && e2 in rows && e1.blockId == e2.blockId
    ensures e1 == e2
  {
    var a :| 0 <= a < |rows| && rows[a] == e1;
    var b :| 0 <= b < |rows| && rows[b] == e2;
    assert EntryBlocks(rows)[a] == EntryBlocks(rows)[b];
  }

  lemma JoinedNoDuplicates(rs: seq<Result<seq<Entry>>>, services: seq<string>)
    requires WellFormed(rs, services) && NoDuplicates(services)
    ensures JoinAll(rs).Ok? && NoDuplicates(JoinAll(rs).value)
  {
    forall i, p, q | 0 <= i < |rs| && 0 <= p < q < |rs[i].value| ensures rs[i].value[p] != rs[i].value[q] {
      assert EntryBlocks(rs[i].value)[p] != EntryBlocks(rs[i].value)[q];
    }
    forall i, j, x | 0 <= i < j < |rs| && x in rs[i].value ensures x !in rs[j].value {
      assert x.serviceId == services[i] != services[j];
    }
    JoinAllNoDuplicates(rs);
  }

  /** Round trip: looking up the block and service of any row of any
      service gives back that row's schedule number. */
  lemma JoinedLookup(rs: seq<Result<seq<Entry>>>, services: seq<string>, i: nat, k: nat)
    requires WellFormed(rs, services) && NoDuplicates(services)
    requires i < |rs| && k < |rs[i].value|
    ensures ScheduleNumberOf(JoinAll(rs).value, rs[i].value[k].blockId, services[i]) == Ok(rs[i].value[k].scheduleNumber)
  {
    JoinedKeysDistinct(rs, services);
    var table := JoinAll(rs).value;
    var e := rs[i].value[k];
    assert e in rs[i].value;
    assert e in table;
    var m :| 0 <= m < |table| && table[m] == e;
    ScheduleNumberOfUniqueRow(table, m);
  }

  /** The lookup finds a row exactly when some service with that id named
      the block; any other pair raises. */
  lemma JoinedLookupFinds(rs: seq<Result<seq<Entry>>>, services: seq<string>, blockId: string, service: string)
    requires WellFormed(rs, services)
    ensures JoinAll(rs).Ok?
    ensures ScheduleNumberOf(JoinAll(rs).value, blockId, service).Ok? <==>
              exists i :: 0 <= i < |rs| && services[i] == service && blockId in EntryBlocks(rs[i].value)
  {
    if ScheduleNumberOf(JoinAll(rs).value, blockId, service).Ok? {
      FoundInService(rs, services, blockId, service);
    }
    if exists i :: 0 <= i < |rs| && services[i] == service && blockId in EntryBlocks(rs[i].value) {
      var i :| 0 <= i < |rs| && services[i] == service && blockId in EntryBlocks(rs[i].value);
      ServiceRowFound(rs, services, i, blockId);
    }
  }

  lemma FoundInService(rs: seq<Result<seq<Entry>>>, services: seq<string>, blockId: string, service: string)
    requires WellFormed(rs, services)
    requires JoinAll(rs).Ok? && ScheduleNumberOf(JoinAll(rs).value, blockId, service).Ok?
    ensures exists i :: 0 <= i < |rs| && services[i] == service && blockId in EntryBlocks(rs[i].value)
  {
    var table := JoinAll(rs).value;
    var found := ScheduleNumberOf(table, blockId, service);
    var m :| 0 <= m < |table| && table[m] == Entry(blockId, found.value, service);
    assert table[m] in table;
    var i :| 0 <= i < |rs| && table[m] in rs[i].value;
    var a :| 0 <= a < |rs[i].value| && rs[i].value[a] == table[m];
    assert EntryBlocks(rs[i].value)[a] == blockId;
  }

  lemma ServiceRowFound(rs: seq<Result<seq<Entry>>>, services: seq<string>, i: nat, blockId: string)
    requires WellFormed(rs, services)
    requires i < |rs| && blockId in EntryBlocks(rs[i].value)
    ensures JoinAll(rs).Ok? && ScheduleNumberOf(JoinAll(rs).value, blockId, services[i]).Ok?
  {
    var a :| 0 <= a < |rs[i].value| && EntryBlocks(rs[i].value)[a] == blockId;
    var e := rs[i].value[a];
    assert e in rs[i].value;
    ScheduleNumberOfRow(JoinAll(rs).value, e);
  }

  /** The same, for a service whose rows are known. */
  lemma JoinedLookupFindsIn(rs: seq<Result<seq<Entry>>>, services: seq<string>, blockId: string, service: string, rows: seq<Entry>)
    requires WellFormed(rs, services)
    requires forall i :: 0 <= i < |rs| && services[i] == service ==> rs[i] == Ok(rows)
    ensures JoinAll(rs).Ok?
    ensures ScheduleNumberOf(JoinAll(rs).value, blockId, service).Ok? <==> service in services && blockId in EntryBlocks(rows)
  {
    JoinedLookupFinds(rs, services, blockId, service);
  }
}
