# TmMonitor agent: a Dafny model of one sampling cycle

The TmMonitor agent (`MonitoringAgent.Program`, `Program.cs`) is a small
Windows telemetry client. Every minute it refreshes the hardware sensors
through LibreHardwareMonitor and picks a CPU load, a CPU temperature, a GPU
temperature and a total-memory description. It takes the link speed of the
first usable network interface, builds a `PcMetricPayload` and posts it as
JSON to a collector. At start-up it reads the collector URL from
`config.ini`.

This project models the deterministic core of that cycle and proves what
it computes:

- `wrappers.dfy`: `Option` (for nullable sensor values and for
  `FirstOrDefault`).
- `text.dfy`: the .NET string operations the agent uses.
  - `char.IsWhiteSpace`, `Trim`, ordinal `StartsWith`/`Contains`, and `Split('=')` with `Join` as its inverse.
  - Decimal printing of whole numbers and of numbers with one decimal place, with parsers proving that nothing is lost.
- `rounding.dfy`: rounding of fixed-point values to a coarser unit.
  - `Math.Round`'s default half-to-even mode.
  - The half-away-from-zero rounding of the custom formats `"0"` and `"0.#"`.
  - Proofs that each contract determines its result.
- `lastwrite.dfy`: the "last write wins" accumulator shared by the two loops of the source.
  - The hardware loop keeps four accumulators (`cpuLoad`, `cpuTemp`, `gpuTemp`, `ramTotalInfo`).
  - The configuration loop keeps one (`SERVER_ENDPOINT`).
- `sensors.dfy`: the sensor selection of lines 66-109.
  - Hardware units and their sensors are values.
  - `SampleSensors` is the loop and is proved equal to `Expected`, the reference value built from `Latest`.
- `network.dfy`: the interface scan and speed formatting of lines 111-123, proved against the first-match reference `LinkOf`.
- `payload.dfy`: the payload construction of lines 126-135 and one whole cycle.
- `configuration.dfy`: `LoadConfiguration` (lines 160-188).
  - The endpoint is a field of a `Program` class, which the method updates line by line.

Fixed point replaces floating point throughout:
- Sensor values are whole numbers of thousandths of their unit (per cent, degrees Celsius, gigabytes).
- The CPU usage in the payload is in tenths of a per cent.
- The temperatures are in whole degrees.
- Network speeds are in bits per second, as `NetworkInterface.Speed` reports them.

Three behaviours of the source that the model keeps:
- The GPU reading comes from a unit whose type name contains "Gpu", and from its first temperature sensor whose name contains "Core" (lines 89-92).
- Every unit of a kind overwrites the accumulator, so the last CPU, GPU or Memory unit that has a matching sensor decides the reading (`LastWrite.LastWriterWins`, `Sensors.RamNeedsUsedAndAvailable`).
- A config file that cannot be read leaves the current endpoint unchanged: the exception handler of lines 184-187 only logs. At start-up the current endpoint is the default URL (`Configuration.StartupEndpoint`).

## Model

| member | source | states |
|---|---|---|
| Text.IsWhiteSpace | Program.cs:176-178 | the set of characters `char.IsWhiteSpace` accepts, which decides what `Trim` removes: U+0009..U+000D, U+0020, U+0085, U+00A0, U+1680, U+2000..U+200A, U+2028, U+2029, U+202F, U+205F and U+3000 |
| Text.Trim | Program.cs:176-178 | the result has no white space at either end, and it stands in the input with only white space around it |
| Text.TrimOfTrimmed | Program.cs:176-178 | a string with no white space at its ends is its own `Trim`, so `Trim` is idempotent |
| Text.Split | Program.cs:178 | there is at least one field; no field holds the separator; there are two or more fields exactly when the separator occurs; joining the fields gives back the input |
| Text.SplitJoin | Program.cs:178 | splitting a join of separator-free fields gives back those fields |
| Text.SecondFieldBetweenSeparators | Program.cs:178 | `Split(c)[1]` is the text between the first and the second separator, or between the first separator and the end |
| Text.NatToString | Program.cs:120 | a whole number prints as decimal digits with no leading zero |
| Text.DecimalRoundTrip | Program.cs:120 | reading the printed digits back gives the number |
| Text.StartsWith | Program.cs:176 | ordinal prefix test; `Setting` and `IsServerUrlLine` state what it means for a line |
| Text.Contains | Program.cs:79-100 | ordinal substring test, with `ContainsIffOccurs` as its partner |
| Text.ContainsIffOccurs | Program.cs:79-100 | `Contains(s, sub)` holds exactly when `sub` occurs at some position of `s` |
| Text.TenthsToString | Program.cs:106 | a number in tenths prints with a '-' exactly when it is negative, then digits with no leading zero, then '.' and one non-zero digit exactly when the tenths digit is not zero (so no trailing ".0"); 0 prints as "0"; the text parses back to the number |
| Rounding.RoundHalfEven | Program.cs:129-131 | `Math.Round` in its default mode: a nearest multiple of the unit, and the even one on a tie |
| Rounding.RoundHalfUp | Program.cs:120 | the `"0"`/`"0.#"` format rounding: a nearest multiple, and the larger one on a tie |
| Rounding.HalfEvenIsUnique | Program.cs:129-131 | exactly one value meets the half-to-even contract |
| Rounding.HalfUpIsUnique | Program.cs:120 | exactly one value meets the half-up contract |
| Rounding.NearestAreClose | Program.cs:129-131 | two nearest multiples differ by at most one unit, and both are ties when they differ |
| LastWrite.NoWriterKeepsInitial | Program.cs:66-69 | when no element writes, the accumulator keeps its initial value |
| LastWrite.LastWriterWins | Program.cs:72-109 | the value written by the last writing element is the final value |
| LastWrite.LastWriterExists | Program.cs:72-109 | when some element writes, there is a last writing element |
| LastWrite.LatestIsLastWrite | Program.cs:66-109 | the accumulator is its initial value when nothing writes, and otherwise the value of the last writer |
| LastWrite.LatestKeeps | Program.cs:173-181 | a property of the initial value and of every written value holds of the final value |
| LastWrite.LatestStep | Program.cs:72-109 | one more element overwrites the accumulator exactly when it writes |
| LastWrite.LatestAppend | Program.cs:72-109 | a pass over `us + vs` is a pass over `vs` started from what `us` left |
| LastWrite.LaterWriteOverwrites | Program.cs:72-109 | a later writer overwrites all earlier ones |
| LastWrite.SilentElementsKeepValue | Program.cs:72-109 | elements that do not write leave the accumulator unchanged |
| Sensors.ValueOrZero | Program.cs:80-105 | `GetValueOrDefault()` of lines 80, 85, 92 and 105: an absent sensor value reads as 0 |
| Sensors.IsTotalLoad | Program.cs:79 | the condition of line 79: a Load sensor whose name contains "Total" |
| Sensors.IsPackageTemperature | Program.cs:82 | the condition of line 82: a Temperature sensor whose name contains "Package" or "Tdie" |
| Sensors.IsCoreTemperature | Program.cs:83-91 | the condition of lines 83 and 91: a Temperature sensor whose name contains "Core" |
| Sensors.IsUsedData | Program.cs:99 | the condition of line 99: a Data sensor whose name contains "Used" |
| Sensors.IsAvailableData | Program.cs:100 | the condition of line 100: a Data sensor whose name contains "Available" |
| Sensors.FirstIndex | Program.cs:79 | none exactly when no sensor satisfies the predicate; otherwise the position of the first one that does |
| Sensors.FirstWhere | Program.cs:79 | `FirstOrDefault`: none exactly when no sensor matches; otherwise the first matching sensor |
| Sensors.CpuTemperatureSensor | Program.cs:82-83 | the first "Package"/"Tdie" temperature sensor wherever it stands; only without one, the first "Core" temperature sensor |
| Sensors.CpuLoadOf | Program.cs:77-80 | a unit writes the CPU load exactly when it is a CPU with a "Total" load sensor, and it writes the first such value (0 when absent) |
| Sensors.CpuTempOf | Program.cs:77-85 | a unit writes the CPU temperature exactly when it is a CPU with a Package, Tdie or Core temperature sensor, and it writes the chosen sensor's value |
| Sensors.GpuTempOf | Program.cs:89-92 | a unit writes the GPU temperature exactly when its type name contains "Gpu" and it has a "Core" temperature sensor, and it writes the first such value |
| Sensors.MemoryTotalOf | Program.cs:96-105 | a total exists exactly for a Memory unit with both a "Used" and an "Available" data sensor, and it is the sum of the first of each |
| Sensors.GbDescription | Program.cs:106 | the text is the half-to-even rounding of the total to tenths, printed by `TenthsToString`, followed by " GB" |
| Sensors.RamInfoOf | Program.cs:96-107 | what a unit writes into the memory description; `RamNeedsUsedAndAvailable` states when and what |
| Sensors.Expected | Program.cs:66-109 | the reference readings: each accumulator is the last write of its kind, or its initial value; `SampleSensors` is proved equal to it |
| Sensors.ReadCpu | Program.cs:76-86 | the CPU section overwrites the two CPU readings with what the unit writes, and keeps them otherwise |
| Sensors.ReadGpu | Program.cs:88-93 | the GPU section overwrites the GPU reading with what the unit writes, and keeps it otherwise |
| Sensors.ReadMemory | Program.cs:95-108 | the memory section replaces the description only when the unit gives a total |
| Sensors.SampleSensors | Program.cs:66-109 | the hardware loop ends with each accumulator holding its last write, or 0 or "0 GB" |
| Sensors.NoCpuMeansZero | Program.cs:66-67 | without a CPU unit the CPU load and temperature are 0 |
| Sensors.NoGpuMeansZero | Program.cs:68 | without a unit whose type contains "Gpu" the GPU temperature is 0 |
| Sensors.RamNeedsUsedAndAvailable | Program.cs:69-107 | the description differs from "0 GB" only if some Memory unit gave a total, and it is then the description of the last such total |
| Network.Qualifies | Program.cs:115-117 | an interface qualifies when it is up, is not loopback and reports a positive speed; `LinkOfIsFirstQualifying` states its role |
| Network.Classify | Program.cs:119-120 | from 1 Gbit/s on, gigabits in tenths rounded half-up (at least 1.0); below it, whole megabits rounded half-up (at most 1000) |
| Network.Describe | Program.cs:112-120 | "Disconnected", or the whole megabits printed by `NatToString` followed by " Mbps", or the gigabits in tenths printed by `TenthsToString` followed by " Gbps"; the number reads back as the speed |
| Network.DescribeIsInjective | Program.cs:112-120 | two different links never get the same description |
| Network.LinkOf | Program.cs:112-123 | the reference scan: the first qualifying interface decides the link, as `LinkOfIsFirstQualifying` states |
| Network.LinkOfIsFirstQualifying | Program.cs:113-123 | the link is "Disconnected" exactly when no interface is up, non-loopback and fast, and is otherwise decided by the first such interface |
| Network.LaterInterfacesIgnored | Program.cs:121 | interfaces after the first qualifying one do not change the link |
| Network.ProbeLink | Program.cs:112-123 | the scan gives the classified speed of the first qualifying interface, and "Disconnected" exactly when there is none |
| Network.GigabitExample | Program.cs:120 | 1,000,000,000 bit/s is "1 Gbps", with no trailing ".0" |
| Network.FractionalGigabitExample | Program.cs:120 | 2,500,000,000 bit/s is "2.5 Gbps" |
| Network.MegabitExample | Program.cs:120 | 100,000,000 bit/s is "100 Mbps" |
| Payload.Assemble | Program.cs:126-135 | the machine name and timestamp are copied; the CPU usage is rounded half-to-even to tenths and the temperatures to whole degrees; the link and memory descriptions are copied |
| Payload.Cycle | Program.cs:65-135 | one cycle posts the payload assembled from the reference sensor readings and the reference link |
| Payload.WorkedSample | Program.cs:126-135 | a 42.34 % load, 65.6 and 70.2 degrees, 8 + 8 GB and a 1 Gbit/s link give 42.3, 66, 70, "16 GB" and "1 Gbps" |
| Configuration.IsServerUrlLine | Program.cs:176-178 | a line whose trimmed text starts with "ServerUrl=" contains an '=', so field 1 of its split exists |
| Configuration.UrlOf | Program.cs:178 | the URL is the trimmed text between the first and the second '=' of the line, or between the first '=' and the end |
| Configuration.Setting | Program.cs:176-180 | a line sets the endpoint only when its trimmed text starts with "ServerUrl=" and the trimmed text after its first '=' (up to the next '=') is not empty, and it sets it to that text; otherwise it sets nothing |
| Configuration.WrittenUrlIsReadBack | Program.cs:167-180 | a "ServerUrl=" line written with a URL free of '=' and of outer white space is read back as that URL |
| Configuration.LastServerUrlWins | Program.cs:173-181 | no setting line keeps the endpoint; otherwise the last setting line decides it; the endpoint is never made empty |
| Configuration.ConfiguredEndpoint | Program.cs:173-181 | the reference value of the line loop, with `LastServerUrlWins` as its properties |
| Configuration.AfterLoad | Program.cs:160-188 | the reference value of `LoadConfiguration` for each outcome of the file calls |
| Configuration.StartupEndpoint | Program.cs:30-36 | at start-up the endpoint ends as the default URL or the URL of some line of the file, and never empty |
| Configuration.DefaultConfigIsReadBack | Program.cs:164-181 | the file written on a first run is read on the next run as the default URL, the same endpoint the first run used |
| Configuration.Program.constructor | Program.cs:30 | the endpoint starts as "http://127.0.0.1:5000/api/monitor" |
| Configuration.Program.LoadConfiguration | Program.cs:160-188 | a missing file sets the default if writing it succeeded; an unreadable file keeps the endpoint; a read file gives the endpoint of `ConfiguredEndpoint` |

## Left out

- Posting the payload (lines 137-153): `HttpClient`, JSON serialisation and the console log lines are I/O with no logic to model beyond the payload itself.
- The endless `while (true)` loop and `Task.Delay(60000)` (lines 63 and 155): only one cycle is modelled; time and scheduling are outside the model.
- Opening the `Computer`, `hardware.Update()` and the admin-rights failure path (lines 39-56, 74): the refreshed hardware is an input of the cycle.
- `Environment.MachineName` and `DateTime.Now` (lines 128, 134): they are parameters of `Payload.Cycle`.
- File system calls in `LoadConfiguration`: `File.Exists`, `File.WriteAllText` and `File.ReadAllLines` are replaced by their outcome, `Configuration.ConfigFile`. Console messages are left out.
- Sensor kinds: only Load, Temperature and Data are told apart; every other `SensorType` is `OtherKind`, because the source never looks at another kind.
- Hardware types: represented by their `ToString` names, so `== HardwareType.Cpu` is a comparison with "Cpu".
- Floating point: `float` sensor values and `double` link speeds are modelled as exact fixed-point integers, so binary rounding is not modelled, nor is the `(float)` cast of the rounded result. For example, a memory total of 42.35 GB is the `float` 42.3499984..., which `Math.Round` turns into 42.3, while the model rounds the exact tie 42.35 to 42.4.
- Payload.Assemble: a negative reading that rounds to zero is 0 in the model, where .NET would format the float as "-0".
- Sensors.GbDescription: a negative memory total that rounds to zero prints as "-0 GB" at line 106; the model prints "0 GB".
- Text.TenthsToString: uses '.' as the decimal separator and no group separators; culture-specific formatting is not modelled.
- Text.StartsWith: ordinal comparison; .NET's `StartsWith(string)` is culture-sensitive, which matters only for unusual Unicode text.
- Sensors.SampleSensors: the loop body calls `ReadCpu`, `ReadGpu` and `ReadMemory` for its three sections, instead of holding them inline as the source does.
