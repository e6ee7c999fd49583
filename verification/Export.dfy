/** From the statistics table to the records of the capture file. */
module Export {
  import opened StatsModel
  import H = HashTable
  import F = CaptureModel

  ghost predicate Exported(t: Records, r: F.Record) {
    var k := RipKey(r.rip, r.stack);
    k in t && t[k] == r.stats
  }

  ghost predicate HasRecord(records: seq<F.Record>, k: RipKey) {
    exists i :: 0 <= i < |records| && records[i].rip == k.rip && records[i].stack == k.stack
  }

  /** One record for each key of the table: as many as the table counts, none twice, each with the counters
      the table has for its key. */
  method ExportRecords(tab: H.GenericHashTable<RipKey, Record>) returns (records: seq<F.Record>)
    requires tab.Valid()
    ensures |records| == tab.count
    ensures forall i, j :: 0 <= i < j < |records| ==>
      records[i].rip != records[j].rip || records[i].stack != records[j].stack
    ensures forall i :: 0 <= i < |records| ==> Exported(tab.Values(), records[i])
    ensures forall k :: k in tab.Values() ==> HasRecord(records, k)
  {
    hide H.GenericHashTable.Valid, H.GenericHashTable.Values;
    var keys := H.Visit(tab);
    records := [];
    for i := 0 to |keys|
      invariant |records| == i
      invariant forall j :: 0 <= j < i ==> records[j].rip == keys[j].rip && records[j].stack == keys[j].stack
      invariant forall j :: 0 <= j < i ==> Exported(tab.Values(), records[j])
    {
      assert keys[i] in tab.contents;
      var node := tab.Find(keys[i]);
      records := records + [F.Record(keys[i].rip, keys[i].stack, node.value)];
    }
    forall i, j | 0 <= i < j < |records|
      ensures records[i].rip != records[j].rip || records[i].stack != records[j].stack
    {
      assert keys[i] != keys[j];
    }
    forall k | k in tab.Values()
      ensures HasRecord(records, k)
    {
      assert k in keys;
      var i :| 0 <= i < |keys| && keys[i] == k;
      assert records[i].rip == k.rip;
    }
  }
}
