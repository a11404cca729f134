/** The IPv6 filter of the earlier command-line revision (cmd/asnmap/output.go).
    It tells IPv6 blocks apart by counting colons in their text, where the
    runner now parses the address part. The global DisplayIPv6 option is a
    parameter, and a block is its text form (`ip.String()`). */
module LegacyOutput {
  import opened Base
  import opened Text
  import IpAddr
  import RunnerOutput

  /** isIPv6: the text holds at least two colons. */
  predicate IsIPv6Text(address: string)
  {
    Count(address, ':') >= 2
  }

  /** isIPv6 holds exactly when ':' occurs at two different positions. */
  lemma IsIPv6TextIff(address: string)
    ensures IsIPv6Text(address) <==>
            exists i, j :: 0 <= i < j < |address| && address[i] == ':' && address[j] == ':'
  {
    CountAtLeastTwo(address, ':');
  }

  /** On addresses the colon count is exact: a dotted quad is never taken for
      IPv6, and every IPv6 address is. */
  lemma AddressClasses(a: string)
    ensures IpAddr.IsIPv4(a) ==> Count(a, ':') == 0 && !IsIPv6Text(a)
    ensures IpAddr.IsIPv6(a) ==> IsIPv6Text(a)
  {
    if IpAddr.IsIPv4(a) {
      forall k | 0 <= k < |a|
        ensures a[k] != ':'
      {
        IpAddr.IPv4OnlyDigitsAndDots(a, k);
      }
      CountZero(a, ':');
    }
    if IpAddr.IsIPv6(a) {
      IpAddr.IPv6HasTwoColons(a);
      CountAtLeastTwo(a, ':');
    }
  }

  /** On a CIDR block `address/prefix` the legacy test and the runner's agree:
      the block counts as IPv6 here exactly when its address part is not IPv4. */
  lemma CidrAgreement(a: string, prefix: string)
    requires IpAddr.IsIP(a) && '/' !in a && AllDigits(prefix)
    ensures IsIPv6Text(a + ['/'] + prefix) <==> !RunnerOutput.ShowsIPv4(a + ['/'] + prefix)
  {
    var c := a + ['/'] + prefix;
    BeforeSeparator(a, '/', prefix);
    CountConcat(a, ['/'], ':');
    CountConcat(a + ['/'], prefix, ':');
    assert Count(['/'], ':') == 0;
    forall k | 0 <= k < |prefix|
      ensures prefix[k] != ':'
    {
      assert IsDigit(prefix[k]);
    }
    CountZero(prefix, ':');
    AddressClasses(a);
  }

  /** The blocks filterIPv6 keeps when IPv6 display is off: those with fewer
      than two colons, in order. */
  function KeepFewColons(ips: seq<string>): seq<string>
  {
    if ips == [] then []
    else
      var rest := KeepFewColons(ips[..|ips| - 1]);
      if !IsIPv6Text(ips[|ips| - 1]) then rest + [ips[|ips| - 1]] else rest
  }

  /** KeepFewColons keeps exactly the blocks with fewer than two colons, in
      their order, and filtering its result again changes nothing. */
  lemma {:induction false} KeepFewColonsMeaning(ips: seq<string>)
    ensures IsSubsequence(KeepFewColons(ips), ips)
    ensures forall c :: c in KeepFewColons(ips) <==> c in ips && Count(c, ':') < 2
    ensures KeepFewColons(KeepFewColons(ips)) == KeepFewColons(ips)
    decreases |ips|
  {
    if ips != [] {
      var n := |ips| - 1;
      var rest := KeepFewColons(ips[..n]);
      KeepFewColonsMeaning(ips[..n]);
      assert ips == ips[..n] + [ips[n]];
      if !IsIPv6Text(ips[n]) {
        assert (rest + [ips[n]])[..|rest|] == rest;
      }
    }
  }

  /** filterIPv6: every block when IPv6 display is on, else only the blocks
      with fewer than two colons. */
  method FilterIPv6(ips: seq<string>, displayIPv6: bool) returns (filtered: seq<string>)
    ensures displayIPv6 ==> filtered == ips
    ensures !displayIPv6 ==> filtered == KeepFewColons(ips)
  {
    if displayIPv6 {
      return ips;
    }
    filtered := [];
    for i := 0 to |ips|
      invariant filtered == KeepFewColons(ips[..i])
    {
      assert ips[..i + 1][..i] == ips[..i];
      if !IsIPv6Text(ips[i]) {
        filtered := filtered + [ips[i]];
      }
    }
    assert ips[..|ips|] == ips;
  }
}
