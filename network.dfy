/** The link-speed probe (Program.cs, lines 111-123): the first network
    interface that is up, is not a loopback interface and reports a positive
    speed gives the link description; when there is none, the link is
    "Disconnected". */
module Network {
  import opened Wrappers
  import Text
  import Rounding

  /** A network interface as the probe sees it: operational status Up or
      not, loopback or not, and `NetworkInterface.Speed` in bits per second
      (a signed 64-bit value; some platforms report -1). */
  datatype Nic = Nic(up: bool, loopback: bool, speed: int)

  /** The link description before it is printed: "Disconnected", whole
      megabits per second, or gigabits per second in tenths. */
  datatype LinkSpeed = Disconnected | Mbps(megabits: nat) | Gbps(tenths: nat)

  const BITS_PER_MEGABIT := 1_000_000
  const BITS_PER_TENTH_GIGABIT := 100_000_000
  const GIGABIT := 1_000_000_000

  /** The condition of lines 115-117. */
  predicate Qualifies(nic: Nic) {
    nic.up && !nic.loopback && nic.speed > 0
  }

  /** The formatting of line 119-120: from 1000 Mbps on, gigabits per second
      rounded to one decimal place ("0.#"); below it, megabits per second
      rounded to a whole number ("0"). Both formats round half away from
      zero. */
  function Classify(speed: nat): (l: LinkSpeed)
    ensures l != Disconnected
    ensures l.Gbps? <==> speed >= GIGABIT
    ensures l.Gbps? ==> l.tenths >= 10 && Rounding.IsHalfUpRounding(speed, BITS_PER_TENTH_GIGABIT, l.tenths)
    ensures l.Mbps? ==> l.megabits <= 1000 && Rounding.IsHalfUpRounding(speed, BITS_PER_MEGABIT, l.megabits)
  {
    if speed >= GIGABIT then Gbps(Rounding.RoundHalfUp(speed, BITS_PER_TENTH_GIGABIT))
    else Mbps(Rounding.RoundHalfUp(speed, BITS_PER_MEGABIT))
  }

  /** The letter four places from the end of a description, which tells
      its kind apart; it serves DescribeIsInjective. */
  function KindMark(l: LinkSpeed): char {
    match l
    case Disconnected => 'c'
    case Mbps(_) => 'M'
    case Gbps(_) => 'G'
  }

  /** The text stored in `linkSpeed`: "Disconnected", "100 Mbps", "1 Gbps",
      "2.5 Gbps". A speed is its number, a space and the unit, and the
      number reads back as the speed. */
  function Describe(l: LinkSpeed): (s: string)
    ensures |s| >= 5 && s[|s| - 4] == KindMark(l)
    ensures l.Disconnected? ==> s == "Disconnected"
    ensures l.Mbps? ==> s[|s| - 5..] == " Mbps" && s[..|s| - 5] == Text.NatToString(l.megabits)
                        && Text.DecimalValue(s[..|s| - 5]) == l.megabits
    ensures l.Gbps? ==> s[|s| - 5..] == " Gbps" && s[..|s| - 5] == Text.TenthsToString(l.tenths)
                        && Text.ParseTenths(s[..|s| - 5]) == l.tenths
  {
    match l
    case Disconnected => "Disconnected"
    case Mbps(n) =>
      var d := Text.NatToString(n);
      Text.DecimalRoundTrip(n);
      assert (d + " Mbps")[..|d|] == d;
      d + " Mbps"
    case Gbps(t) =>
      var d := Text.TenthsToString(t);
      assert (d + " Gbps")[..|d|] == d;
      d + " Gbps"
  }

  /** Two different links are never described alike: the description is
      all the collector needs to recover the link. */
  lemma DescribeIsInjective(a: LinkSpeed, b: LinkSpeed)
    requires Describe(a) == Describe(b)
    ensures a == b
  {
  }

  /** The reference value of the probe: the classified speed of the first
      qualifying interface, or Disconnected. */
  function LinkOf(nics: seq<Nic>): LinkSpeed
    decreases |nics|
  {
    if nics == [] then Disconnected
    else if Qualifies(nics[0]) then Classify(nics[0].speed)
    else LinkOf(nics[1..])
  }

  /** `i` is the first qualifying interface. */
  ghost predicate IsFirstQualifying(nics: seq<Nic>, i: int) {
    0 <= i < |nics| && Qualifies(nics[i]) && forall j :: 0 <= j < i ==> !Qualifies(nics[j])
  }

  /** LinkOf is Disconnected exactly when no interface qualifies, and is
      otherwise decided by the first qualifying interface alone. */
  lemma {:induction false} LinkOfIsFirstQualifying(nics: seq<Nic>)
    ensures LinkOf(nics) == Disconnected <==> forall i :: 0 <= i < |nics| ==> !Qualifies(nics[i])
    ensures forall i :: IsFirstQualifying(nics, i) ==> LinkOf(nics) == Classify(nics[i].speed)
    decreases |nics|
  {
    if nics != [] {
      LinkOfIsFirstQualifying(nics[1..]);
      if !Qualifies(nics[0]) {
        forall i | IsFirstQualifying(nics, i)
          ensures LinkOf(nics) == Classify(nics[i].speed)
        {
          assert IsFirstQualifying(nics[1..], i - 1);
        }
        assert (forall i :: 0 <= i < |nics[1..]| ==> !Qualifies(nics[1..][i]))
               ==> (forall i :: 0 <= i < |nics| ==> !Qualifies(nics[i]));
      }
    }
  }

  /** Interfaces after the first qualifying one do not matter. */
  lemma LaterInterfacesIgnored(nics: seq<Nic>, i: nat, rest: seq<Nic>)
    requires IsFirstQualifying(nics, i)
    ensures LinkOf(nics + rest) == LinkOf(nics)
  {
    LinkOfIsFirstQualifying(nics);
    assert IsFirstQualifying(nics + rest, i);
    LinkOfIsFirstQualifying(nics + rest);
  }

  /** The `foreach` of lines 112-123: the first qualifying interface sets
      the link and ends the scan. */
  method ProbeLink(nics: seq<Nic>) returns (linkSpeed: LinkSpeed)
    ensures linkSpeed == LinkOf(nics)
    ensures linkSpeed == Disconnected <==> forall i :: 0 <= i < |nics| ==> !Qualifies(nics[i])
  {
    LinkOfIsFirstQualifying(nics);
    linkSpeed := Disconnected;
    var n := 0;
    while n < |nics|
      invariant 0 <= n <= |nics|
      invariant forall j :: 0 <= j < n ==> !Qualifies(nics[j])
      invariant linkSpeed == Disconnected
    {
      var nic := nics[n];
      if nic.up && !nic.loopback && nic.speed > 0 {
        assert IsFirstQualifying(nics, n);
        linkSpeed := Classify(nic.speed);
        break;
      }
      n := n + 1;
    }
  }

  /** Worked conversions: 1,000,000,000 bits per second is "1 Gbps" (no
      trailing ".0"), 2,500,000,000 is "2.5 Gbps", 100,000,000 is "100 Mbps". */
  lemma GigabitExample()
    ensures Describe(Classify(1_000_000_000)) == "1 Gbps"
  {
  }

  lemma FractionalGigabitExample()
    ensures Describe(Classify(2_500_000_000)) == "2.5 Gbps"
  {
  }

  lemma MegabitExample()
    ensures Describe(Classify(100_000_000)) == "100 Mbps"
  {
  }
}
