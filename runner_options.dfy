/** The runner's options and their validation (runner/options.go). A string
    slice flag that was never given is `None` (Go's nil slice). Whether stdin
    carries data and the config file path are parameters. */
module RunnerOptions {
  import opened Base

  /** goflags.StringSlice: None when the flag was not given. */
  type StringSlice = Option<seq<string>>

  /** The fields of Options that the runner reads. `hasOutput` says the
      io.Writer is not nil, `hasOnResult` that a callback is set. */
  datatype Options = Options(
    fileInput: StringSlice, asn: StringSlice, domain: StringSlice, ip: StringSlice, org: StringSlice,
    displayInJSON: bool, displayInCSV: bool, silent: bool, verbose: bool, displayIPv6: bool,
    hasOutput: bool, hasOnResult: bool)

  const ErrVerboseSilent: string := "verbose and silent can't be used together"
  const ErrNoInput: string := "no input defined"
  const ErrAsnWithOthers: string := "asn and other options like ip, org and domain can't be used together as input to get data"
  const ErrIpWithOthers: string := "ip and other options like asn, org and domain can't be used together as input to get data"
  const ErrOrgWithOthers: string := "org and other options like asn, ip and domain can't be used together as input to get data"
  const ErrDomainWithOthers: string := "domain and other options like asn, ip and org can't be used together as input to get data"
  const ErrJsonCsv: string := "can either display in json or csv"
  const ErrInvalidAsn: string := "invalid ASN given. it should start with prefix 'AS', example : AS14421"

  /** strings.ToUpper maps the character to 'A'. */
  predicate UppersToA(c: char) { c == 'a' || c == 'A' }

  /** strings.ToUpper maps the character to 'S': besides s and S, the long s
      (U+017F) upper-cases to S. */
  predicate UppersToS(c: char) { c == 's' || c == 'S' || c == '\U{017F}' }

  /** strings.HasPrefix(strings.ToUpper(asn), "AS"). */
  predicate HasAsPrefix(asn: string)
  {
    |asn| >= 2 && UppersToA(asn[0]) && UppersToS(asn[1])
  }

  /** The loop over the Asn flag: true when no entry lacks the prefix. */
  function AsnListValid(asns: seq<string>): (ok: bool)
    ensures ok <==> forall i :: 0 <= i < |asns| ==> HasAsPrefix(asns[i])
  {
    if asns == [] then true
    else if !HasAsPrefix(asns[0]) then false
    else AsnListValid(asns[1..])
  }

  /** How many of Asn, Ip, Org and Domain are set. */
  function KindsGiven(o: Options): nat
  {
    (if o.asn.Some? then 1 else 0) + (if o.ip.Some? then 1 else 0) +
    (if o.org.Some? then 1 else 0) + (if o.domain.Some? then 1 else 0)
  }

  /** No source of input at all. */
  predicate NoInput(o: Options, hasStdin: bool, cfgFile: string)
  {
    o.asn.None? && o.ip.None? && o.org.None? && o.domain.None? && !hasStdin && cfgFile == "" && o.fileInput.None?
  }

  /** validateOptions: the first check that fails names the error; None when all pass. */
  function ValidateOptions(o: Options, hasStdin: bool, cfgFile: string): (r: Option<string>)
    ensures o.verbose && o.silent ==> r == Some(ErrVerboseSilent)
    ensures r == Some(ErrNoInput) <==> !(o.verbose && o.silent) && NoInput(o, hasStdin, cfgFile)
    ensures r.None? ==> !(o.verbose && o.silent) && !NoInput(o, hasStdin, cfgFile)
    ensures r.None? ==> KindsGiven(o) <= 1 && !(o.displayInJSON && o.displayInCSV)
    ensures r.None? && o.asn.Some? ==> forall i :: 0 <= i < |o.asn.value| ==> HasAsPrefix(o.asn.value[i])
  {
    if o.verbose && o.silent then Some(ErrVerboseSilent)
    else if NoInput(o, hasStdin, cfgFile) then Some(ErrNoInput)
    else if o.asn.Some? && (o.ip.Some? || o.org.Some? || o.domain.Some?) then Some(ErrAsnWithOthers)
    else if o.ip.Some? && (o.asn.Some? || o.org.Some? || o.domain.Some?) then Some(ErrIpWithOthers)
    else if o.org.Some? && (o.asn.Some? || o.ip.Some? || o.domain.Some?) then Some(ErrOrgWithOthers)
    else if o.domain.Some? && (o.asn.Some? || o.ip.Some? || o.org.Some?) then Some(ErrDomainWithOthers)
    else if o.displayInJSON && o.displayInCSV then Some(ErrJsonCsv)
    else if o.asn.Some? && !AsnListValid(o.asn.value) then Some(ErrInvalidAsn)
    else None
  }

  /** The options pass exactly when every check holds: both flags of a pair
      are not set together, some input exists, at most one input kind is
      given (a file may go with any of them) and every ASN has its prefix. */
  lemma ValidIff(o: Options, hasStdin: bool, cfgFile: string)
    ensures ValidateOptions(o, hasStdin, cfgFile).None? <==>
            !(o.verbose && o.silent) && !NoInput(o, hasStdin, cfgFile) && KindsGiven(o) <= 1 &&
            !(o.displayInJSON && o.displayInCSV) &&
            (o.asn.Some? ==> forall i :: 0 <= i < |o.asn.value| ==> HasAsPrefix(o.asn.value[i]))
  {
  }

  /** Two input kinds together are refused with the message of the first of
      Asn, Ip, Org, Domain that is set, once the earlier checks pass. */
  lemma TwoKindsRefused(o: Options, hasStdin: bool, cfgFile: string)
    requires !(o.verbose && o.silent) && KindsGiven(o) >= 2
    ensures ValidateOptions(o, hasStdin, cfgFile) ==
            Some(if o.asn.Some? then ErrAsnWithOthers
                 else if o.ip.Some? then ErrIpWithOthers
                 else ErrOrgWithOthers)
  {
  }

  /** Only the prefix of an ASN is checked: "14421" is refused and "ASX" passes. */
  lemma AsnPrefixExamples(o: Options, hasStdin: bool, cfgFile: string, x: string)
    requires x in {"14421", "ASX"}
    requires o.asn == Some([x]) && o.ip.None? && o.org.None? && o.domain.None?
    requires !(o.verbose && o.silent) && !(o.displayInJSON && o.displayInCSV)
    ensures ValidateOptions(o, hasStdin, cfgFile) == if x == "14421" then Some(ErrInvalidAsn) else None
  {
    assert AsnListValid([x]) <==> HasAsPrefix(x);
  }
}
