/**
 * Performance series as read from vCenter (Series, internal/vc/perf.go): samples
 * of one entity in ascending time order, per counter and per datastore instance.
 */
module VcSeries {
  import opened MapSums

  const CPU_USAGE := "cpu.usage.average"
  const CPU_READY := "cpu.ready.summation"
  const CPU_COSTOP := "cpu.costop.summation"
  const CPU_MHZ := "cpu.usagemhz.average"
  const MEM_USAGE := "mem.usage.average"
  const MEM_CONSUMED := "mem.consumed.average"
  const DISK_USAGE := "disk.usage.average"
  const NET_USAGE := "net.usage.average"
  const READ_IOPS := "datastore.numberReadAveraged.average"
  const WRITE_IOPS := "datastore.numberWriteAveraged.average"
  const READ_KBPS := "datastore.read.average"
  const WRITE_KBPS := "datastore.write.average"
  const READ_LAT := "datastore.totalReadLatency.average"
  const WRITE_LAT := "datastore.totalWriteLatency.average"

  type ByInstance = map<string, seq<real>>

  datatype Series = Series(
    ref: string, interval: int, ts: seq<int>,
    values: map<string, seq<real>>, inst: map<string, ByInstance>)

  /** A counter at sample i, or -1 when it was not reported. */
  function ValueAt(s: Series, counter: string, i: nat): real {
    if counter in s.values && i < |s.values[counter]| then s.values[counter][i] else -1.0
  }

  function InstancesOf(s: Series, counter: string): ByInstance {
    if counter in s.inst then s.inst[counter] else map[]
  }

  /** The reported values of a per-datastore counter at sample i. */
  function Reported(m: ByInstance, i: nat): map<string, real> {
    map inst | inst in m && i < |m[inst]| && m[inst][i] >= 0.0 :: m[inst][i]
  }

  ghost function SumAt(s: Series, counter: string, i: nat): real {
    var r := Reported(InstancesOf(s, counter), i);
    if r == map[] then -1.0 else SumMap(r)
  }

  /** Adds a per-datastore counter over all datastores, whatever order the map is ranged over in. */
  method Sum(s: Series, counter: string, i: nat) returns (r: real)
    ensures r == SumAt(s, counter, i)
  {
    var m := InstancesOf(s, counter);
    var total, ok := 0.0, false;
    var rest := m.Keys;
    ghost var done: map<string, real> := map[];
    while rest != {}
      invariant rest <= m.Keys
      invariant done == map inst | inst in Reported(m, i) && inst !in rest :: m[inst][i]
      invariant total == SumMap(done)
      invariant ok <==> done != map[]
    {
      var inst :| inst in rest;
      var v := m[inst];
      rest := rest - {inst};
      if i < |v| && v[i] >= 0.0 {
        SumMapUpdate(done, inst, v[i]);
        done := done[inst := v[i]];
        total, ok := total + v[i], true;
      }
    }
    assert done == Reported(m, i);
    return if ok then total else -1.0;
  }
}
