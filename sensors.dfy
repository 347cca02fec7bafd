/** The sensor selector: one pass over the refreshed hardware units that
    keeps the CPU load, CPU temperature, GPU temperature and total-memory
    description of the sample (Program.cs, lines 66-109).

    Readings are whole numbers of thousandths of the sensor's unit
    (per cent, degrees Celsius, gigabytes), written "milli" below. */
module Sensors {
  import opened Wrappers
  import Text
  import Rounding
  import opened LastWrite

  /** The sensor kinds the agent looks at; every other kind is `OtherKind`. */
  datatype SensorType = Load | Temperature | Data | OtherKind

  /** A sensor of a hardware unit; `value` is absent when the driver gave none. */
  datatype Sensor = Sensor(kind: SensorType, name: string, value: Option<int>)

  /** A hardware unit: the name of its hardware type ("Cpu", "Memory",
      "GpuNvidia", ...) and its sensors in enumeration order. */
  datatype Hardware = Hardware(typeName: string, sensors: seq<Sensor>)

  const CPU_TYPE := "Cpu"
  const MEMORY_TYPE := "Memory"
  const GPU_TAG := "Gpu"
  /** The memory description kept when no memory unit gives a total. */
  const UNKNOWN_RAM := "0 GB"

  /** `Value.GetValueOrDefault()`: an absent value reads as 0. */
  function ValueOrZero(s: Sensor): int {
    s.value.GetOr(0)
  }

  predicate IsTotalLoad(s: Sensor) {
    s.kind == Load && Text.Contains(s.name, "Total")
  }

  predicate IsPackageTemperature(s: Sensor) {
    s.kind == Temperature && (Text.Contains(s.name, "Package") || Text.Contains(s.name, "Tdie"))
  }

  predicate IsCoreTemperature(s: Sensor) {
    s.kind == Temperature && Text.Contains(s.name, "Core")
  }

  predicate IsUsedData(s: Sensor) {
    s.kind == Data && Text.Contains(s.name, "Used")
  }

  predicate IsAvailableData(s: Sensor) {
    s.kind == Data && Text.Contains(s.name, "Available")
  }

  /** `i` is the position of the first sensor of `ss` that satisfies `p`. */
  ghost predicate IsFirst(ss: seq<Sensor>, p: Sensor -> bool, i: int) {
    0 <= i < |ss| && p(ss[i]) && forall j :: 0 <= j < i ==> !p(ss[j])
  }

  /** Position of the first sensor of `ss` that satisfies `p`, if any. */
  function FirstIndex(ss: seq<Sensor>, p: Sensor -> bool): (r: Option<nat>)
    ensures r.None? <==> forall i :: 0 <= i < |ss| ==> !p(ss[i])
    ensures r.Some? ==> IsFirst(ss, p, r.value)
    decreases |ss|
  {
    if ss == [] then None
    else if p(ss[0]) then Some(0)
    else
      match FirstIndex(ss[1..], p)
      case Some(i) => Some(i + 1)
      case None => None
  }

  /** `FirstOrDefault(p)`: the first sensor that satisfies `p`, or none
      when no sensor does. */
  function FirstWhere(ss: seq<Sensor>, p: Sensor -> bool): (r: Option<Sensor>)
    ensures r.None? <==> forall i :: 0 <= i < |ss| ==> !p(ss[i])
    ensures r.Some? ==> exists i :: IsFirst(ss, p, i) && ss[i] == r.value
  {
    match FirstIndex(ss, p)
    case Some(i) => Some(ss[i])
    case None => None
  }

  /** The CPU temperature sensor of one unit (lines 82-83): the first
      "Package" or "Tdie" temperature sensor, wherever it stands; only when
      there is none, the first "Core" temperature sensor. */
  function CpuTemperatureSensor(ss: seq<Sensor>): (r: Option<Sensor>)
    ensures (exists i :: 0 <= i < |ss| && IsPackageTemperature(ss[i])) ==>
              r.Some? && exists i :: IsFirst(ss, IsPackageTemperature, i) && ss[i] == r.value
    ensures (forall i :: 0 <= i < |ss| ==> !IsPackageTemperature(ss[i])) ==>
              r == FirstWhere(ss, IsCoreTemperature)
    ensures r.Some? ==> IsPackageTemperature(r.value) || IsCoreTemperature(r.value)
  {
    match FirstWhere(ss, IsPackageTemperature)
    case Some(s) => Some(s)
    case None => FirstWhere(ss, IsCoreTemperature)
  }

  /** "0 GB", "16 GB", "15.9 GB": gigabytes rounded to one decimal place by
      `Math.Round` and printed without a trailing zero (line 106). */
  function GbDescription(milliGb: int): (s: string)
    ensures |s| >= 4 && s[|s| - 3..] == " GB"
    ensures Rounding.IsHalfEvenRounding(milliGb, 100, Text.ParseTenths(s[..|s| - 3]))
    ensures exists r :: Rounding.IsHalfEvenRounding(milliGb, 100, r) && s[..|s| - 3] == Text.TenthsToString(r)
  {
    var d := Text.TenthsToString(Rounding.RoundHalfEven(milliGb, 100));
    assert (d + " GB")[..|d|] == d;
    d + " GB"
  }

  /** What one unit writes into `cpuLoad` (lines 77-80), if anything: only a
      CPU unit with a "Total" load sensor writes, and it writes the first
      such sensor's value, 0 when that value is absent. */
  function CpuLoadOf(h: Hardware): (r: Option<int>)
    ensures r.Some? <==> h.typeName == CPU_TYPE && exists i :: 0 <= i < |h.sensors| && IsTotalLoad(h.sensors[i])
    ensures r.Some? ==> exists i :: IsFirst(h.sensors, IsTotalLoad, i) && r.value == ValueOrZero(h.sensors[i])
  {
    if h.typeName != CPU_TYPE then None
    else match FirstWhere(h.sensors, IsTotalLoad)
      case Some(s) => Some(ValueOrZero(s))
      case None => None
  }

  /** What one unit writes into `cpuTemp` (lines 77, 82-85): only a CPU unit
      with a "Package", "Tdie" or "Core" temperature sensor writes, and the
      value is that of CpuTemperatureSensor, 0 when absent. */
  function CpuTempOf(h: Hardware): (r: Option<int>)
    ensures r.Some? <==> h.typeName == CPU_TYPE
                         && exists i :: 0 <= i < |h.sensors| && (IsPackageTemperature(h.sensors[i]) || IsCoreTemperature(h.sensors[i]))
    ensures r.Some? ==> CpuTemperatureSensor(h.sensors).Some?
                        && r.value == ValueOrZero(CpuTemperatureSensor(h.sensors).value)
  {
    if h.typeName != CPU_TYPE then None
    else match CpuTemperatureSensor(h.sensors)
      case Some(s) => Some(ValueOrZero(s))
      case None => None
  }

  /** What one unit writes into `gpuTemp` (lines 89-92): only a unit whose
      type name contains "Gpu" and that has a "Core" temperature sensor
      writes, and it writes the first such sensor's value, 0 when absent. */
  function GpuTempOf(h: Hardware): (r: Option<int>)
    ensures r.Some? <==> Text.Contains(h.typeName, GPU_TAG) && exists i :: 0 <= i < |h.sensors| && IsCoreTemperature(h.sensors[i])
    ensures r.Some? ==> exists i :: IsFirst(h.sensors, IsCoreTemperature, i) && r.value == ValueOrZero(h.sensors[i])
  {
    if !Text.Contains(h.typeName, GPU_TAG) then None
    else match FirstWhere(h.sensors, IsCoreTemperature)
      case Some(s) => Some(ValueOrZero(s))
      case None => None
  }

  /** The total memory of one unit in milli-GB (lines 96-105): present only
      for a Memory unit that has both a "Used" and an "Available" data
      sensor, and then the sum of the first of each, absent values counting 0. */
  function MemoryTotalOf(h: Hardware): (r: Option<int>)
    ensures r.Some? <==> h.typeName == MEMORY_TYPE
                         && (exists i :: 0 <= i < |h.sensors| && IsUsedData(h.sensors[i]))
                         && (exists j :: 0 <= j < |h.sensors| && IsAvailableData(h.sensors[j]))
    ensures r.Some? ==> exists i, j :: IsFirst(h.sensors, IsUsedData, i) && IsFirst(h.sensors, IsAvailableData, j)
                                      && r.value == ValueOrZero(h.sensors[i]) + ValueOrZero(h.sensors[j])
  {
    if h.typeName != MEMORY_TYPE then None
    else
      var used := FirstWhere(h.sensors, IsUsedData);
      var avail := FirstWhere(h.sensors, IsAvailableData);
      if used.Some? && avail.Some? then Some(ValueOrZero(used.value) + ValueOrZero(avail.value)) else None
  }

  /** What one unit writes into `ramTotalInfo` (lines 96-107). */
  function RamInfoOf(h: Hardware): Option<string> {
    match MemoryTotalOf(h)
    case Some(t) => Some(GbDescription(t))
    case None => None
  }

  /** The four accumulators of one sample. */
  datatype Readings = Readings(cpuLoad: int, cpuTemp: int, gpuTemp: int, ramTotalInfo: string)

  /** The reference value of the sample: each accumulator holds what the last
      unit that writes it wrote, or its initial value. */
  function Expected(units: seq<Hardware>): Readings {
    Readings(Latest(units, CpuLoadOf, 0), Latest(units, CpuTempOf, 0),
             Latest(units, GpuTempOf, 0), Latest(units, RamInfoOf, UNKNOWN_RAM))
  }

  /** The CPU section of the loop body (lines 76-86): a CPU unit overwrites
      `cpuLoad` with its first "Total" load reading and `cpuTemp` with its
      preferred temperature reading, each only when that sensor exists. */
  method ReadCpu(hardware: Hardware, cpuLoad0: int, cpuTemp0: int) returns (cpuLoad: int, cpuTemp: int)
    ensures cpuLoad == CpuLoadOf(hardware).GetOr(cpuLoad0)
    ensures cpuTemp == CpuTempOf(hardware).GetOr(cpuTemp0)
  {
    cpuLoad, cpuTemp := cpuLoad0, cpuTemp0;
    if hardware.typeName == CPU_TYPE {
      var loadSensor := FirstWhere(hardware.sensors, IsTotalLoad);
      if loadSensor.Some? {
        cpuLoad := ValueOrZero(loadSensor.value);
      }
      var tempSensor := CpuTemperatureSensor(hardware.sensors);
      if tempSensor.Some? {
        cpuTemp := ValueOrZero(tempSensor.value);
      }
    }
  }

  /** The GPU section of the loop body (lines 88-93). */
  method ReadGpu(hardware: Hardware, gpuTemp0: int) returns (gpuTemp: int)
    ensures gpuTemp == GpuTempOf(hardware).GetOr(gpuTemp0)
  {
    gpuTemp := gpuTemp0;
    if Text.Contains(hardware.typeName, GPU_TAG) {
      var gpuSensor := FirstWhere(hardware.sensors, IsCoreTemperature);
      if gpuSensor.Some? {
        gpuTemp := ValueOrZero(gpuSensor.value);
      }
    }
  }

  /** The memory section of the loop body (lines 95-108): the description
      changes only when the unit has both a "Used" and an "Available" sensor. */
  method ReadMemory(hardware: Hardware, ramTotalInfo0: string) returns (ramTotalInfo: string)
    ensures ramTotalInfo == RamInfoOf(hardware).GetOr(ramTotalInfo0)
  {
    ramTotalInfo := ramTotalInfo0;
    if hardware.typeName == MEMORY_TYPE {
      var usedSensor := FirstWhere(hardware.sensors, IsUsedData);
      var availSensor := FirstWhere(hardware.sensors, IsAvailableData);
      if usedSensor.Some? && availSensor.Some? {
        var totalRamGb := ValueOrZero(usedSensor.value) + ValueOrZero(availSensor.value);
        assert MemoryTotalOf(hardware).value == totalRamGb;
        ramTotalInfo := GbDescription(totalRamGb);
      }
    }
  }

  /** The hardware loop of lines 66-109: the accumulators start at 0 and
      "0 GB" and are updated unit by unit, in enumeration order. */
  method SampleSensors(units: seq<Hardware>) returns (r: Readings)
    ensures r == Expected(units)
  {
    var cpuLoad, cpuTemp, gpuTemp := 0, 0, 0;
    var ramTotalInfo := UNKNOWN_RAM;
    var n := 0;
    while n < |units|
      invariant 0 <= n <= |units|
      invariant cpuLoad == Latest(units[..n], CpuLoadOf, 0)
      invariant cpuTemp == Latest(units[..n], CpuTempOf, 0)
      invariant gpuTemp == Latest(units[..n], GpuTempOf, 0)
      invariant ramTotalInfo == Latest(units[..n], RamInfoOf, UNKNOWN_RAM)
    {
      var hardware := units[n];
      LatestStep(units, n, CpuLoadOf, 0);
      LatestStep(units, n, CpuTempOf, 0);
      LatestStep(units, n, GpuTempOf, 0);
      LatestStep(units, n, RamInfoOf, UNKNOWN_RAM);
      cpuLoad, cpuTemp := ReadCpu(hardware, cpuLoad, cpuTemp);
      gpuTemp := ReadGpu(hardware, gpuTemp);
      ramTotalInfo := ReadMemory(hardware, ramTotalInfo);
      n := n + 1;
    }
    assert units[..n] == units;
    r := Readings(cpuLoad, cpuTemp, gpuTemp, ramTotalInfo);
  }

  // ----- Properties of the selection -----

  /** Without a CPU unit the CPU load and temperature stay 0. */
  lemma NoCpuMeansZero(units: seq<Hardware>)
    requires forall i :: 0 <= i < |units| ==> units[i].typeName != CPU_TYPE
    ensures Expected(units).cpuLoad == 0 && Expected(units).cpuTemp == 0
  {
    LatestIsLastWrite(units, CpuLoadOf, 0);
    LatestIsLastWrite(units, CpuTempOf, 0);
  }

  /** Without a unit whose type name contains "Gpu" the GPU temperature stays 0. */
  lemma NoGpuMeansZero(units: seq<Hardware>)
    requires forall i :: 0 <= i < |units| ==> !Text.Contains(units[i].typeName, GPU_TAG)
    ensures Expected(units).gpuTemp == 0
  {
    LatestIsLastWrite(units, GpuTempOf, 0);
  }

  /** `k` is the last Memory unit that gives a total. */
  ghost predicate IsLastMemoryTotal(units: seq<Hardware>, k: int) {
    0 <= k < |units| && MemoryTotalOf(units[k]).Some?
    && forall j :: k < j < |units| ==> MemoryTotalOf(units[j]).None?
  }

  /** The memory description differs from "0 GB" only because some Memory
      unit had both a "Used" and an "Available" data sensor; it is then the
      description of the sum read from the last such unit. */
  lemma RamNeedsUsedAndAvailable(units: seq<Hardware>)
    ensures Expected(units).ramTotalInfo != UNKNOWN_RAM ==>
              exists i :: 0 <= i < |units| && MemoryTotalOf(units[i]).Some?
    ensures forall k :: IsLastMemoryTotal(units, k) ==>
              Expected(units).ramTotalInfo == GbDescription(MemoryTotalOf(units[k]).value)
  {
    LatestIsLastWrite(units, RamInfoOf, UNKNOWN_RAM);
    if forall i :: 0 <= i < |units| ==> MemoryTotalOf(units[i]).None? {
      assert forall i :: 0 <= i < |units| ==> RamInfoOf(units[i]).None?;
    }
    forall k | IsLastMemoryTotal(units, k)
      ensures Expected(units).ramTotalInfo == GbDescription(MemoryTotalOf(units[k]).value)
    {
      assert forall j :: k < j < |units| ==> RamInfoOf(units[j]).None?;
      LastWriterWins(units, RamInfoOf, UNKNOWN_RAM, k);
    }
  }
}
