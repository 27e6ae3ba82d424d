/** metric/system/cgroup/cgv1/blkio.go: block I/O totals of a cgroup from the throttle files. */
module Blkio {
  import opened GoNumbers
  import opened Wrappers

  datatype DeviceID = DeviceID(major: uint64, minor: uint64)

  datatype BlkioValue = BlkioValue(device: DeviceID, operation: string, value: uint64)

  datatype OpValues = OpValues(read: uint64, write: uint64, async: uint64, sync: uint64)

  const NO_OPS := OpValues(0, 0, 0, 0)

  class OpCell {
    var ops: OpValues

    constructor ()
      ensures ops == NO_OPS
    {
      ops := NO_OPS;
    }
  }

  datatype Limit = ReadBPS | WriteBPS | ReadIOPS | WriteIOPS

  class ThrottleDevice {
    var bytes: OpValues
    var ios: OpValues
    var limits: map<Limit, uint64>

    constructor ()
      ensures bytes == NO_OPS && ios == NO_OPS && limits == map[]
    {
      bytes, ios, limits := NO_OPS, NO_OPS, map[];
    }
  }

  class BlockIOSubsystem {
    var totalBytes: uint64
    var totalIos: uint64

    constructor ()
      ensures totalBytes == 0 && totalIos == 0
    {
      totalBytes, totalIos := 0, 0;
    }
  }

  // ---------- what a file says of a device ----------

  /** The last value a file gives for an operation of a device; 0 without one. */
  function LastValue(values: seq<BlkioValue>, id: DeviceID, operation: string): uint64 {
    if values == [] then 0
    else
      var v := values[|values| - 1];
      if v.device == id && v.operation == operation then v.value
      else LastValue(values[..|values| - 1], id, operation)
  }

  function LastOps(values: seq<BlkioValue>, id: DeviceID): OpValues {
    OpValues(LastValue(values, id, "read"), LastValue(values, id, "write"),
             LastValue(values, id, "async"), LastValue(values, id, "sync"))
  }

  function DevicesIn(values: seq<BlkioValue>): set<DeviceID> {
    set v | v in values :: v.device
  }

  lemma {:induction false} AbsentDevice(values: seq<BlkioValue>, id: DeviceID)
    requires id !in DevicesIn(values)
    ensures LastOps(values, id) == NO_OPS
  {
    if values != [] {
      assert values[|values| - 1] in values;
      AbsentDevice(values[..|values| - 1], id);
    }
  }

  function WithOperation(ops: OpValues, v: BlkioValue): OpValues {
    if v.operation == "read" then ops.(read := v.value)
    else if v.operation == "write" then ops.(write := v.value)
    else if v.operation == "async" then ops.(async := v.value)
    else if v.operation == "sync" then ops.(sync := v.value)
    else ops
  }

  lemma LastOpsExtend(values: seq<BlkioValue>, v: BlkioValue, id: DeviceID)
    ensures LastOps(values + [v], id) ==
      if v.device == id then WithOperation(LastOps(values, id), v) else LastOps(values, id)
  {
    assert (values + [v])[..|values|] == values;
  }

  method CollectOpValues(values: seq<BlkioValue>) returns (opValues: map<DeviceID, OpCell>)
    ensures opValues.Keys == DevicesIn(values)
    ensures forall id :: id in opValues ==> fresh(opValues[id]) && opValues[id].ops == LastOps(values, id)
  {
    opValues := map[];
    for k := 0 to |values|
      invariant opValues.Keys == DevicesIn(values[..k])
      invariant forall id :: id in opValues ==> fresh(opValues[id]) && opValues[id].ops == LastOps(values[..k], id)
      invariant forall a, b :: a in opValues && b in opValues && a != b ==> opValues[a] != opValues[b]
    {
      var bv := values[k];
      ghost var seen := values[..k];
      assert values[..k + 1] == seen + [bv];
      forall id ensures LastOps(seen + [bv], id) ==
        if bv.device == id then WithOperation(LastOps(seen, id), bv) else LastOps(seen, id)
      {
        LastOpsExtend(seen, bv, id);
      }
      if bv.device !in opValues {
        AbsentDevice(seen, bv.device);
        var cell := new OpCell();
        opValues := opValues[bv.device := cell];
      }
      assert DevicesIn(seen + [bv]) == DevicesIn(seen) + {bv.device};
      var opValue := opValues[bv.device];
      opValue.ops := WithOperation(opValue.ops, bv);
    }
    assert values[..|values|] == values;
  }

  lemma AbsentDevices(values: seq<BlkioValue>)
    ensures forall id :: id !in DevicesIn(values) ==> LastOps(values, id) == NO_OPS
  {
    forall id | id !in DevicesIn(values)
      ensures LastOps(values, id) == NO_OPS
    {
      AbsentDevice(values, id);
    }
  }

  // ---------- the table of devices ----------

  /** The devices map of blkioThrottle with the closure that extends it. */
  class DeviceTable {
    var devices: map<DeviceID, ThrottleDevice>
    ghost var Repr: set<object>

    ghost predicate Valid()
      reads this, Repr
    {
      && this in Repr
      && (forall id :: id in devices ==> devices[id] in Repr)
      && (forall a, b :: a in devices && b in devices && a != b ==> devices[a] != devices[b])
    }

    ghost function Bytes(id: DeviceID): OpValues
      requires Valid()
      reads this, Repr
    {
      if id in devices then devices[id].bytes else NO_OPS
    }

    ghost function Ios(id: DeviceID): OpValues
      requires Valid()
      reads this, Repr
    {
      if id in devices then devices[id].ios else NO_OPS
    }

    constructor ()
      ensures Valid() && fresh(Repr) && devices == map[]
    {
      devices := map[];
      Repr := {this};
    }

    /** The entry of a device, made on first use. */
    method GetDevice(id: DeviceID) returns (td: ThrottleDevice)
      requires Valid()
      modifies this
      ensures Valid() && fresh(Repr - old(Repr)) && td in Repr
      ensures devices == old(devices)[id := td]
      ensures id in old(devices) ==> td == old(devices)[id]
      ensures id !in old(devices) ==> fresh(td) && td.bytes == NO_OPS && td.ios == NO_OPS && td.limits == map[]
    {
      if id in devices {
        td := devices[id];
      } else {
        td := new ThrottleDevice();
        Repr := Repr + {td};
      }
      devices := devices[id := td];
    }

    method SetBytes(id: DeviceID, ops: OpValues)
      requires Valid()
      modifies Repr
      ensures Valid() && fresh(Repr - old(Repr)) && devices.Keys == old(devices.Keys) + {id}
      ensures forall k :: Bytes(k) == if k == id then ops else old(Bytes(k))
      ensures forall k :: Ios(k) == old(Ios(k))
    {
      var td := GetDevice(id);
      td.bytes := ops;
    }

    method SetIos(id: DeviceID, ops: OpValues)
      requires Valid()
      modifies Repr
      ensures Valid() && fresh(Repr - old(Repr)) && devices.Keys == old(devices.Keys) + {id}
      ensures forall k :: Ios(k) == if k == id then ops else old(Ios(k))
      ensures forall k :: Bytes(k) == old(Bytes(k))
    {
      var td := GetDevice(id);
      td.ios := ops;
    }

    /** The loop over the bytes statistics, device by device in whatever order. */
    method FillBytes(values: seq<BlkioValue>)
      requires Valid()
      requires forall id :: Bytes(id) == NO_OPS
      modifies Repr
      ensures Valid() && fresh(Repr - old(Repr)) && devices.Keys == old(devices.Keys) + DevicesIn(values)
      ensures forall id :: Bytes(id) == LastOps(values, id)
      ensures forall id :: Ios(id) == old(Ios(id))
    {
      hide LastOps;
      AbsentDevices(values);
      var opValues := CollectOpValues(values);
      var todo := opValues.Keys;
      while todo != {}
        invariant todo <= opValues.Keys
        invariant Valid() && fresh(Repr - old(Repr)) && devices.Keys == old(devices.Keys) + (opValues.Keys - todo)
        invariant forall id :: id in opValues ==> fresh(opValues[id]) && opValues[id] !in Repr
        invariant forall id :: id in opValues ==> opValues[id].ops == LastOps(values, id)
        invariant forall id :: Bytes(id) == if id in todo then NO_OPS else LastOps(values, id)
        invariant forall id :: Ios(id) == old(Ios(id))
      {
        var id :| id in todo;
        SetBytes(id, opValues[id].ops);
        todo := todo - {id};
      }
    }

    /** The same for the operation counts. */
    method FillIos(values: seq<BlkioValue>)
      requires Valid()
      requires forall id :: Ios(id) == NO_OPS
      modifies Repr
      ensures Valid() && fresh(Repr - old(Repr)) && devices.Keys == old(devices.Keys) + DevicesIn(values)
      ensures forall id :: Ios(id) == LastOps(values, id)
      ensures forall id :: Bytes(id) == old(Bytes(id))
    {
      hide LastOps;
      AbsentDevices(values);
      var opValues := CollectOpValues(values);
      var todo := opValues.Keys;
      while todo != {}
        invariant todo <= opValues.Keys
        invariant Valid() && fresh(Repr - old(Repr)) && devices.Keys == old(devices.Keys) + (opValues.Keys - todo)
        invariant forall id :: id in opValues ==> fresh(opValues[id]) && opValues[id] !in Repr
        invariant forall id :: id in opValues ==> opValues[id].ops == LastOps(values, id)
        invariant forall id :: Ios(id) == if id in todo then NO_OPS else LastOps(values, id)
        invariant forall id :: Bytes(id) == old(Bytes(id))
      {
        var id :| id in todo;
        SetIos(id, opValues[id].ops);
        todo := todo - {id};
      }
    }

    method SetLimit(id: DeviceID, limit: Limit, value: uint64)
      requires Valid()
      modifies Repr
      ensures Valid() && fresh(Repr - old(Repr)) && devices.Keys == old(devices.Keys) + {id}
      ensures forall k :: Bytes(k) == old(Bytes(k)) && Ios(k) == old(Ios(k))
      ensures devices[id].limits == (if id in old(devices) then old(devices[id].limits) else map[])[limit := value]
    {
      var td := GetDevice(id);
      td.limits := td.limits[limit := value];
    }

    /** Records one kind of limit for the devices of a limit file. */
    method FillLimits(values: seq<BlkioValue>, limit: Limit)
      requires Valid()
      modifies Repr
      ensures Valid() && fresh(Repr - old(Repr)) && devices.Keys == old(devices.Keys) + DevicesIn(values)
      ensures forall id :: Bytes(id) == old(Bytes(id))
      ensures forall id :: Ios(id) == old(Ios(id))
    {
      for k := 0 to |values|
        invariant Valid() && fresh(Repr - old(Repr)) && devices.Keys == old(devices.Keys) + DevicesIn(values[..k])
        invariant forall id :: Bytes(id) == old(Bytes(id))
        invariant forall id :: Ios(id) == old(Ios(id))
      {
        assert values[..k + 1] == values[..k] + [values[k]];
        SetLimit(values[k].device, limit, values[k].value);
      }
      assert values[..|values|] == values;
    }
  }

  // ---------- totals ----------

  /** The last read plus the last write of a device, without wrap-around. */
  function ReadWrite(values: seq<BlkioValue>, id: DeviceID): int {
    LastValue(values, id, "read") + LastValue(values, id, "write")
  }

  /** The sum, over the given devices, of the last read and the last write of a file. */
  ghost function SumLast(ids: set<DeviceID>, values: seq<BlkioValue>): int {
    if ids == {} then 0
    else
      var id :| id in ids;
      ReadWrite(values, id) + SumLast(ids - {id}, values)
  }

  lemma {:induction false} SumLastRemove(ids: set<DeviceID>, values: seq<BlkioValue>, id: DeviceID)
    requires id in ids
    ensures SumLast(ids, values) == ReadWrite(values, id) + SumLast(ids - {id}, values)
  {
    hide ReadWrite;
    var x :| x in ids && SumLast(ids, values) == ReadWrite(values, x) + SumLast(ids - {x}, values);
    if x != id {
      SumLastRemove(ids - {x}, values, id);
      SumLastRemove(ids - {id}, values, x);
      assert ids - {x} - {id} == ids - {id} - {x};
    }
  }

  /** Devices a file does not mention add nothing. */
  lemma {:induction false} SumLastExtra(ids: set<DeviceID>, values: seq<BlkioValue>)
    requires DevicesIn(values) <= ids
    ensures SumLast(ids, values) == SumLast(DevicesIn(values), values)
  {
    hide LastValue;
    if ids != DevicesIn(values) {
      var id :| id in ids && id !in DevicesIn(values);
      SumLastRemove(ids, values, id);
      AbsentDevice(values, id);
      SumLastExtra(ids - {id}, values);
    }
  }

  /** The six files under the cgroup, each absent (None), readable, or failing. */
  datatype Files = Files(
    serviceBytes: Result<Option<seq<BlkioValue>>>, serviced: Result<Option<seq<BlkioValue>>>,
    readBPS: Result<Option<seq<BlkioValue>>>, writeBPS: Result<Option<seq<BlkioValue>>>,
    readIOPS: Result<Option<seq<BlkioValue>>>, writeIOPS: Result<Option<seq<BlkioValue>>>)
  {
    predicate Readable() {
      serviceBytes.Ok? && serviced.Ok? && readBPS.Ok? && writeBPS.Ok? && readIOPS.Ok? && writeIOPS.Ok?
    }
  }

  /** What a readable or absent statistics file adds to a total. */
  ghost function FileTotal(file: Result<Option<seq<BlkioValue>>>): int
    requires file.Ok?
  {
    SumLast(DevicesIn(file.value.GetOr([])), file.value.GetOr([]))
  }

  /** The four limit files in turn; no statistic of any device changes. */
  method FillAllLimits(table: DeviceTable, files: Files) returns (ok: bool)
    requires table.Valid()
    modifies table.Repr
    ensures ok <==> files.readBPS.Ok? && files.writeBPS.Ok? && files.readIOPS.Ok? && files.writeIOPS.Ok?
    ensures table.Valid() && fresh(table.Repr - old(table.Repr)) && old(table.devices.Keys) <= table.devices.Keys
    ensures forall id :: table.Bytes(id) == old(table.Bytes(id))
    ensures forall id :: table.Ios(id) == old(table.Ios(id))
  {
    if files.readBPS.Err? {
      return false;
    }
    table.FillLimits(files.readBPS.value.GetOr([]), ReadBPS);
    if files.writeBPS.Err? {
      return false;
    }
    table.FillLimits(files.writeBPS.value.GetOr([]), WriteBPS);
    if files.readIOPS.Err? {
      return false;
    }
    table.FillLimits(files.readIOPS.value.GetOr([]), ReadIOPS);
    if files.writeIOPS.Err? {
      return false;
    }
    table.FillLimits(files.writeIOPS.value.GetOr([]), WriteIOPS);
    ok := true;
  }

  /** Both totals grow, modulo 2^64, by the last reads and writes of every device of their own
      file, whatever the map orders and the limit files; an error changes nothing. */
  method BlkioThrottle(files: Files, blkio: BlockIOSubsystem) returns (ok: bool)
    modifies blkio
    ensures ok <==> files.Readable()
    ensures ok ==> blkio.totalBytes == Wrap(old(blkio.totalBytes) + FileTotal(files.serviceBytes))
    ensures ok ==> blkio.totalIos == Wrap(old(blkio.totalIos) + FileTotal(files.serviced))
    ensures !ok ==> unchanged(blkio)
  {
    hide LastOps;
    hide SumLast;
    hide DevicesIn;
    hide Wrap;
    var table := new DeviceTable();
    if files.serviceBytes.Err? {
      return false;
    }
    table.FillBytes(files.serviceBytes.value.GetOr([]));
    if files.serviced.Err? {
      return false;
    }
    table.FillIos(files.serviced.value.GetOr([]));
    var limitsRead := FillAllLimits(table, files);
    if !limitsRead {
      return false;
    }
    ghost var bytes, ios := files.serviceBytes.value.GetOr([]), files.serviced.value.GetOr([]);
    forall id | id in table.devices
      ensures table.devices[id].bytes == LastOps(bytes, id) && table.devices[id].ios == LastOps(ios, id)
    {
      assert table.Bytes(id) == LastOps(bytes, id) && table.Ios(id) == LastOps(ios, id);
    }
    AddTotals(table.devices, blkio, bytes, ios);
    SumLastExtra(table.devices.Keys, bytes);
    SumLastExtra(table.devices.Keys, ios);
    ok := true;
  }

  method AddTotals(devices: map<DeviceID, ThrottleDevice>, blkio: BlockIOSubsystem,
                   ghost bytes: seq<BlkioValue>, ghost ios: seq<BlkioValue>)
    requires forall id :: id in devices ==>
      devices[id].bytes == LastOps(bytes, id) && devices[id].ios == LastOps(ios, id)
    modifies blkio
    ensures blkio.totalBytes == Wrap(old(blkio.totalBytes) + SumLast(devices.Keys, bytes))
    ensures blkio.totalIos == Wrap(old(blkio.totalIos) + SumLast(devices.Keys, ios))
  {
    hide LastOps;
    hide ReadWrite;
    hide Add;
    var todo := devices.Keys;
    ghost var addedBytes, addedIos := 0, 0;
    while todo != {}
      invariant todo <= devices.Keys
      invariant addedBytes + SumLast(todo, bytes) == SumLast(devices.Keys, bytes)
      invariant addedIos + SumLast(todo, ios) == SumLast(devices.Keys, ios)
      invariant blkio.totalBytes == Wrap(old(blkio.totalBytes) + addedBytes)
      invariant blkio.totalIos == Wrap(old(blkio.totalIos) + addedIos)
    {
      var id :| id in todo;
      var dev := devices[id];
      SumLastRemove(todo, bytes, id);
      SumLastRemove(todo, ios, id);
      AddWraps(old(blkio.totalBytes) + addedBytes, bytes, id);
      AddWraps(old(blkio.totalIos) + addedIos, ios, id);
      blkio.totalBytes := Add(blkio.totalBytes, Add(dev.bytes.read, dev.bytes.write));
      blkio.totalIos := Add(blkio.totalIos, Add(dev.ios.read, dev.ios.write));
      addedBytes := addedBytes + ReadWrite(bytes, id);
      addedIos := addedIos + ReadWrite(ios, id);
      todo := todo - {id};
    }
  }

  lemma AddWraps(n: int, values: seq<BlkioValue>, id: DeviceID)
    ensures var ops := LastOps(values, id);
      Add(Wrap(n), Add(ops.read, ops.write)) == Wrap(n + ReadWrite(values, id))
  {
    var ops := LastOps(values, id);
    WrapAbsorbs(n, Add(ops.read, ops.write));
    WrapAbsorbs(ReadWrite(values, id), n);
  }

  // ---------- the same total, read off the file line by line ----------

  predicate Mentions(values: seq<BlkioValue>, id: DeviceID, operation: string) {
    exists v :: v in values && v.device == id && v.operation == operation
  }

  /** A line counts when it is a read or a write and no later line of the file replaces it. */
  function LineCounts(v: BlkioValue, later: seq<BlkioValue>): int {
    if v.operation in {"read", "write"} && !Mentions(later, v.device, v.operation) then v.value else 0
  }

  function SumOfLines(values: seq<BlkioValue>): int {
    if values == [] then 0 else LineCounts(values[0], values[1..]) + SumOfLines(values[1..])
  }

  lemma {:induction false} LastValueHead(v: BlkioValue, later: seq<BlkioValue>, id: DeviceID, operation: string)
    ensures !Mentions(later, id, operation) ==> LastValue(later, id, operation) == 0
    ensures LastValue([v] + later, id, operation) ==
      if !Mentions(later, id, operation) && v.device == id && v.operation == operation then v.value
      else LastValue(later, id, operation)
  {
    var all := [v] + later;
    if later == [] {
      assert all[..0] == [];
    } else {
      assert all[..|all| - 1] == [v] + later[..|later| - 1];
      assert later[|later| - 1] in later;
      LastValueHead(v, later[..|later| - 1], id, operation);
    }
  }

  lemma {:induction false} SumLastHead(ids: set<DeviceID>, v: BlkioValue, later: seq<BlkioValue>)
    ensures SumLast(ids, [v] + later) == SumLast(ids, later) + if v.device in ids then LineCounts(v, later) else 0
  {
    hide LastValue;
    if ids != {} {
      var id :| id in ids;
      SumLastRemove(ids, [v] + later, id);
      SumLastRemove(ids, later, id);
      LastValueHead(v, later, id, "read");
      LastValueHead(v, later, id, "write");
      SumLastHead(ids - {id}, v, later);
    }
  }

  /** Summing per device or per line gives the same total. */
  lemma {:induction false} TotalIsSumOfLines(values: seq<BlkioValue>)
    ensures SumLast(DevicesIn(values), values) == SumOfLines(values)
  {
    if values != [] {
      var v, later := values[0], values[1..];
      assert values == [v] + later;
      TotalIsSumOfLines(later);
      SumLastHead(DevicesIn(values), v, later);
      SumLastExtra(DevicesIn(values), later);
    }
  }
}
