/** The payload assembler and one sampling cycle (Program.cs, lines 65-135):
    read the sensors, probe the link, and build the record that is posted.
    The machine name and the clock are inputs of the cycle. */
module Payload {
  import Wrappers
  import Text
  import Rounding
  import Sensors
  import Network

  /** `PcMetricPayload`. `cpuUsage` is in tenths of a per cent, `cpuTemp`
      and `gpuTemp` in whole degrees Celsius; `timestamp` is the value the
      clock gave when the payload is built. */
  datatype PcMetricPayload = PcMetricPayload(
    machineName: string,
    cpuUsage: int,
    cpuTemp: int,
    gpuTemp: int,
    nicSpeed: string,
    totalRam: string,
    timestamp: int)

  /** Tenths per milli-unit and whole units per milli-unit. */
  const MILLI_PER_TENTH := 100
  const MILLI_PER_UNIT := 1000

  /** The payload construction of lines 126-135: every field is present; the
      CPU usage is the load rounded to one decimal place, the temperatures are
      rounded to whole degrees, the link and memory descriptions are copied. */
  function Assemble(machineName: string, readings: Sensors.Readings, link: Network.LinkSpeed, now: int)
    : (p: PcMetricPayload)
    ensures p.machineName == machineName && p.timestamp == now
    ensures Rounding.IsHalfEvenRounding(readings.cpuLoad, MILLI_PER_TENTH, p.cpuUsage)
    ensures Rounding.IsHalfEvenRounding(readings.cpuTemp, MILLI_PER_UNIT, p.cpuTemp)
    ensures Rounding.IsHalfEvenRounding(readings.gpuTemp, MILLI_PER_UNIT, p.gpuTemp)
    ensures p.nicSpeed == Network.Describe(link) && p.totalRam == readings.ramTotalInfo
  {
    PcMetricPayload(
      machineName,
      Rounding.RoundHalfEven(readings.cpuLoad, MILLI_PER_TENTH),
      Rounding.RoundHalfEven(readings.cpuTemp, MILLI_PER_UNIT),
      Rounding.RoundHalfEven(readings.gpuTemp, MILLI_PER_UNIT),
      Network.Describe(link),
      readings.ramTotalInfo,
      now)
  }

  /** One pass of the main loop up to the payload (lines 65-135). */
  method Cycle(units: seq<Sensors.Hardware>, nics: seq<Network.Nic>, machineName: string, now: int)
    returns (payload: PcMetricPayload)
    ensures payload == Assemble(machineName, Sensors.Expected(units), Network.LinkOf(nics), now)
  {
    var readings := Sensors.SampleSensors(units);
    var linkSpeed := Network.ProbeLink(nics);
    payload := Assemble(machineName, readings, linkSpeed, now);
  }

  /** The worked sample: a 42.34 % load, a 65.6 and a 70.2 degree
      temperature, 8.0 + 8.0 GB of memory and a 1 Gbit/s link are posted as
      42.3 %, 66 and 70 degrees, "16 GB" and "1 Gbps". */
  lemma WorkedSample()
    ensures Assemble("PC-01", Sensors.Readings(42340, 65600, 70200, Sensors.GbDescription(8000 + 8000)),
                     Network.Classify(1_000_000_000), 0)
            == PcMetricPayload("PC-01", 423, 66, 70, "1 Gbps", "16 GB", 0)
  {
    assert Rounding.RoundHalfEven(42340, MILLI_PER_TENTH) == 423;
    assert Rounding.RoundHalfEven(65600, MILLI_PER_UNIT) == 66;
    assert Rounding.RoundHalfEven(70200, MILLI_PER_UNIT) == 70;
    assert Sensors.GbDescription(16000) == "16 GB" by {
      assert Rounding.RoundHalfEven(16000, 100) == 160;
      assert Text.NatToString(16) == "16" by {
        assert Text.NatToString(1) == "1";
      }
      assert Text.UnsignedTenthsToString(160) == "16";
      assert Text.TenthsToString(160) == "16";
    }
    assert Network.Describe(Network.Classify(1_000_000_000)) == "1 Gbps" by {
      Network.GigabitExample();
    }
  }
}
