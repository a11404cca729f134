/** The runner (runner/runner.go, with writeOutput and filterIPv6 from
    runner/output.go): it fills a deduplicated store of inputs, then walks the
    store, querying the client for each input (fanning a domain out over its
    addresses) and writing what comes back. The store is a set; DNS, the HTTP
    transport, the JSON decoder and GetCIDR are parameters collected in `Env`. */
module Runner {
  import opened Base
  import opened Text
  import opened Types
  import Client
  import IpAddr
  import opened RunnerOptions
  import opened RunnerOutput

  /** ResolveDomain: the addresses of a domain, or the resolver's error. */
  type Resolver = string -> Outcome<seq<string>>

  /** What the runner reaches outside itself: the API key, the transport, the
      JSON decoder and the metadata parameters of the client, the resolver,
      GetCIDR, the clock reading, and the comparison sliceutil.Contains uses. */
  datatype Env = Env(apiKey: string, transport: Client.Transport, decode: Client.Decoder,
                     metadata: seq<Client.Param>, resolve: Resolver, cidrOf: CidrOracle, now: string,
                     same: (Response, Response) -> bool)

  // ---------------------------------------------------------------- the store

  /** What setItem adds for one raw value: its trimmed text, unless empty. */
  function ItemOf(v: string): set<string>
  {
    if TrimSpace(v) != "" then {TrimSpace(v)} else {}
  }

  /** The store after setItem on each value in turn, from empty. */
  function StoreOf(items: seq<string>): set<string>
  {
    if items == [] then {} else StoreOf(items[..|items| - 1]) + ItemOf(items[|items| - 1])
  }

  /** `x` is the trimmed text of one of the values. */
  predicate TrimsTo(items: seq<string>, x: string)
  {
    exists i :: 0 <= i < |items| && TrimSpace(items[i]) == x
  }

  /** Everything in the store is the non-empty trimmed text of some value. */
  lemma {:induction false} StoreOfSound(items: seq<string>, x: string)
    requires x in StoreOf(items)
    ensures x != "" && TrimsTo(items, x)
    decreases |items|
  {
    var n := |items| - 1;
    var prefix := items[..n];
    if x in StoreOf(prefix) {
      StoreOfSound(prefix, x);
      var i :| 0 <= i < n && TrimSpace(prefix[i]) == x;
      assert items[i] == prefix[i];
    } else {
      assert TrimSpace(items[n]) == x;
    }
  }

  /** Every non-empty trimmed value is in the store. */
  lemma {:induction false} StoreOfComplete(items: seq<string>, k: nat)
    requires k < |items| && TrimSpace(items[k]) != ""
    ensures TrimSpace(items[k]) in StoreOf(items)
    decreases |items|
  {
    var n := |items| - 1;
    if k < n {
      var prefix := items[..n];
      assert prefix[k] == items[k];
      StoreOfComplete(prefix, k);
    }
  }

  /** The store holds exactly the non-empty trimmed values, each once. */
  lemma StoreOfMeaning(items: seq<string>, x: string)
    ensures x in StoreOf(items) <==> x != "" && TrimsTo(items, x)
  {
    if x in StoreOf(items) {
      StoreOfSound(items, x);
    }
    if x != "" && TrimsTo(items, x) {
      var k :| 0 <= k < |items| && TrimSpace(items[k]) == x;
      StoreOfComplete(items, k);
    }
  }

  /** No stored input begins or ends with white space. */
  lemma StoreOfTrimmed(items: seq<string>, x: string)
    requires x in StoreOf(items)
    ensures x != "" && !IsSpace(x[0]) && !IsSpace(x[|x| - 1])
  {
    StoreOfMeaning(items, x);
    var i :| 0 <= i < |items| && TrimSpace(items[i]) == x;
  }

  /** Filling from two lists in turn is filling from their concatenation. */
  lemma {:induction false} StoreOfConcat(a: seq<string>, b: seq<string>)
    ensures StoreOf(a + b) == StoreOf(a) + StoreOf(b)
    decreases |b|
  {
    if b == [] {
      assert a + b == a;
    } else {
      var n := |b| - 1;
      StoreOfConcat(a, b[..n]);
      assert (a + b)[..|a + b| - 1] == a + b[..n];
    }
  }

  /** The entries of a flag that may be absent. */
  function Entries(s: StringSlice): seq<string>
  {
    if s.Some? then s.value else []
  }

  /** prepareInput's sources in the order it reads them: stdin lines (when
      stdin has data), then FileInput, Asn, Ip, Domain and Org. */
  function Sources(o: Options, stdin: Option<seq<string>>): seq<string>
  {
    Entries(stdin) + Entries(o.fileInput) + Entries(o.asn) + Entries(o.ip) + Entries(o.domain) + Entries(o.org)
  }

  /** The store filled from all sources is the union of the stores filled
      from each. */
  lemma StoreOfSources(o: Options, stdin: Option<seq<string>>)
    ensures StoreOf(Sources(o, stdin)) ==
            StoreOf(Entries(stdin)) + StoreOf(Entries(o.fileInput)) + StoreOf(Entries(o.asn)) +
            StoreOf(Entries(o.ip)) + StoreOf(Entries(o.domain)) + StoreOf(Entries(o.org))
  {
    var a := Entries(stdin);
    var b := Entries(o.fileInput);
    var c := Entries(o.asn);
    var d := Entries(o.ip);
    var e := Entries(o.domain);
    var f := Entries(o.org);
    StoreOfConcat(a, b);
    StoreOfConcat(a + b, c);
    StoreOfConcat(a + b + c, d);
    StoreOfConcat(a + b + c + d, e);
    StoreOfConcat(a + b + c + d + e, f);
  }

  /** Every ASN given on the command line reaches the store trimmed, with its
      "AS" prefix kept. */
  lemma AsnEntriesStored(o: Options, stdin: Option<seq<string>>, a: string)
    requires o.asn.Some? && a in o.asn.value && TrimSpace(a) != ""
    ensures TrimSpace(a) in StoreOf(Sources(o, stdin))
  {
    var src := Sources(o, stdin);
    var k :| 0 <= k < |o.asn.value| && o.asn.value[k] == a;
    var at := |Entries(stdin) + Entries(o.fileInput)| + k;
    assert src[at] == a;
    StoreOfMeaning(src, TrimSpace(a));
  }

  // ---------------------------------------------------- deduplicating a domain

  /** sliceutil.Contains under the comparison `same`. */
  predicate Contains(a: seq<Response>, x: Response, same: (Response, Response) -> bool)
  {
    exists i :: 0 <= i < |a| && same(a[i], x)
  }

  /** No later element of `a` is `same` as an earlier one. */
  predicate NoDup(a: seq<Response>, same: (Response, Response) -> bool)
  {
    forall i, j :: 0 <= i < j < |a| ==> !same(a[i], a[j])
  }

  /** `acc` after appending each element of `ls` that it does not contain yet. */
  function AppendAbsent(acc: seq<Response>, ls: seq<Response>, same: (Response, Response) -> bool): seq<Response>
  {
    if ls == [] then acc
    else
      var a := AppendAbsent(acc, ls[..|ls| - 1], same);
      if Contains(a, ls[|ls| - 1], same) then a else a + [ls[|ls| - 1]]
  }

  /** Appending the absent ones keeps `acc` in front and adds a subsequence of
      `ls`, so first occurrences stay in their order. */
  lemma {:induction false} AppendAbsentOrder(acc: seq<Response>, ls: seq<Response>, same: (Response, Response) -> bool)
    ensures var r := AppendAbsent(acc, ls, same);
            |acc| <= |r| && r[..|acc|] == acc && IsSubsequence(r[|acc|..], ls)
    decreases |ls|
  {
    if ls == [] {
      SubsequenceRefl(acc[|acc|..]);
    } else {
      var n := |ls| - 1;
      var a := AppendAbsent(acc, ls[..n], same);
      AppendAbsentOrder(acc, ls[..n], same);
      var r := AppendAbsent(acc, ls, same);
      var tail := a[|acc|..];
      assert ls == ls[..n] + [ls[n]];
      if Contains(a, ls[n], same) {
        SubsequenceAppendRight(tail, ls[..n], ls[n]);
      } else {
        assert r[|acc|..] == tail + [ls[n]];
        assert (tail + [ls[n]])[..|tail|] == tail;
        assert r[..|acc|] == a[..|acc|];
      }
    }
  }

  /** Appending the absent ones adds nothing `same` as an element already there. */
  lemma {:induction false} AppendAbsentNoDup(acc: seq<Response>, ls: seq<Response>, same: (Response, Response) -> bool)
    requires NoDup(acc, same)
    ensures NoDup(AppendAbsent(acc, ls, same), same)
    decreases |ls|
  {
    if ls != [] {
      AppendAbsentNoDup(acc, ls[..|ls| - 1], same);
    }
  }

  /** After appending the absent ones, every element of `ls` is present or
      matched by an element `same` as it. */
  lemma {:induction false} AppendAbsentCovers(acc: seq<Response>, ls: seq<Response>, same: (Response, Response) -> bool)
    ensures var r := AppendAbsent(acc, ls, same);
            forall k :: 0 <= k < |ls| ==> ls[k] in r || Contains(r, ls[k], same)
    decreases |ls|
  {
    if ls != [] {
      var n := |ls| - 1;
      var a := AppendAbsent(acc, ls[..n], same);
      AppendAbsentCovers(acc, ls[..n], same);
      var r := AppendAbsent(acc, ls, same);
      assert forall i :: 0 <= i < |a| ==> r[i] == a[i];
      forall k | 0 <= k < n
        ensures ls[k] in r || Contains(r, ls[k], same)
      {
        assert ls[..n][k] == ls[k];
        if Contains(a, ls[k], same) {
          var i :| 0 <= i < |a| && same(a[i], ls[k]);
          assert r[i] == a[i];
        }
      }
    }
  }

  /** The addresses' records gathered so far, and the fetch error that ended
      the fan-out early, if any. */
  datatype Gathered = Gathered(responses: seq<Response>, err: Option<string>)

  /** The fan-out loop of a domain: fetch each address in turn, keep the
      records not yet present, and stop at the first fetch error. */
  function FanOut(ips: seq<string>, fetch: string -> Outcome<seq<Response>>,
                  same: (Response, Response) -> bool): Gathered
  {
    if ips == [] then Gathered([], None)
    else
      var g := FanOut(ips[..|ips| - 1], fetch, same);
      if g.err.Some? then g
      else
        match fetch(ips[|ips| - 1])
        case Err(e) => Gathered(g.responses, Some(e))
        case Ok(ls) => Gathered(AppendAbsent(g.responses, ls, same), None)
  }

  /** One more address fanned out, when no fetch has failed yet. */
  lemma FanOutStep(ips: seq<string>, i: nat, fetch: string -> Outcome<seq<Response>>,
                   same: (Response, Response) -> bool)
    requires i < |ips| && FanOut(ips[..i], fetch, same).err.None?
    ensures FanOut(ips[..i + 1], fetch, same) ==
            match fetch(ips[i])
            case Err(e) => Gathered(FanOut(ips[..i], fetch, same).responses, Some(e))
            case Ok(ls) => Gathered(AppendAbsent(FanOut(ips[..i], fetch, same).responses, ls, same), None)
  {
    assert ips[..i + 1][..i] == ips[..i];
  }

  /** After a fetch error the remaining addresses are not visited. */
  lemma {:induction false} FanOutStops(ips: seq<string>, i: nat, fetch: string -> Outcome<seq<Response>>,
                                       same: (Response, Response) -> bool)
    requires i <= |ips| && FanOut(ips[..i], fetch, same).err.Some?
    ensures FanOut(ips, fetch, same) == FanOut(ips[..i], fetch, same)
    decreases |ips| - i
  {
    if i < |ips| {
      assert ips[..i + 1][..i] == ips[..i];
      FanOutStops(ips, i + 1, fetch, same);
    } else {
      assert ips[..i] == ips;
    }
  }

  /** The records gathered over a prefix of the addresses stay in front. */
  lemma {:induction false} FanOutGrows(ips: seq<string>, m: nat, fetch: string -> Outcome<seq<Response>>,
                                       same: (Response, Response) -> bool)
    requires m <= |ips|
    ensures var early := FanOut(ips[..m], fetch, same).responses;
            var r := FanOut(ips, fetch, same).responses;
            |early| <= |r| && r[..|early|] == early
    decreases |ips| - m
  {
    if m < |ips| {
      assert ips[..m + 1][..m] == ips[..m];
      FanOutGrows(ips, m + 1, fetch, same);
      var g := FanOut(ips[..m], fetch, same);
      if g.err.None? && fetch(ips[m]).Ok? {
        AppendAbsentOrder(g.responses, fetch(ips[m]).value, same);
      }
    } else {
      assert ips[..m] == ips;
    }
  }

  /** The gathered records never hold two that `same` relates (the later one
      after the earlier one), and each was fetched for one of the addresses. */
  lemma {:induction false} FanOutNoDupAndOrigin(ips: seq<string>, fetch: string -> Outcome<seq<Response>>,
                                                same: (Response, Response) -> bool)
    ensures NoDup(FanOut(ips, fetch, same).responses, same)
    ensures forall x :: x in FanOut(ips, fetch, same).responses ==>
              exists k :: 0 <= k < |ips| && fetch(ips[k]).Ok? && x in fetch(ips[k]).value
    decreases |ips|
  {
    if ips != [] {
      var n := |ips| - 1;
      var g := FanOut(ips[..n], fetch, same);
      FanOutNoDupAndOrigin(ips[..n], fetch, same);
      forall x | x in g.responses
        ensures exists k :: 0 <= k < |ips| && fetch(ips[k]).Ok? && x in fetch(ips[k]).value
      {
        var k :| 0 <= k < n && fetch(ips[..n][k]).Ok? && x in fetch(ips[..n][k]).value;
        assert ips[..n][k] == ips[k];
      }
      if g.err.None? && fetch(ips[n]).Ok? {
        var ls := fetch(ips[n]).value;
        AppendAbsentOrder(g.responses, ls, same);
        AppendAbsentNoDup(g.responses, ls, same);
        var r := AppendAbsent(g.responses, ls, same);
        forall x | x in r
          ensures exists k :: 0 <= k < |ips| && fetch(ips[k]).Ok? && x in fetch(ips[k]).value
        {
          var i :| 0 <= i < |r| && r[i] == x;
          if i >= |g.responses| {
            assert x in r[|g.responses|..];
            SubsequenceElements(r[|g.responses|..], ls);
            assert fetch(ips[n]).Ok? && x in fetch(ips[n]).value;
          } else {
            assert x == r[..|g.responses|][i];
            assert x in g.responses;
          }
        }
      }
    }
  }

  /** Every record fetched for an address before the fan-out stopped is among
      the gathered ones or matched by one of them. */
  lemma FanOutCovers(ips: seq<string>, k: nat, fetch: string -> Outcome<seq<Response>>,
                     same: (Response, Response) -> bool)
    requires k < |ips| && FanOut(ips[..k + 1], fetch, same).err.None?
    ensures var r := FanOut(ips, fetch, same).responses;
            forall x :: x in fetch(ips[k]).value ==> x in r || Contains(r, x, same)
  {
    assert ips[..k + 1][..k] == ips[..k];
    var g := FanOut(ips[..k], fetch, same);
    var ls := fetch(ips[k]).value;
    AppendAbsentOrder(g.responses, ls, same);
    AppendAbsentCovers(g.responses, ls, same);
    var mid := AppendAbsent(g.responses, ls, same);
    FanOutGrows(ips, k + 1, fetch, same);
    var r := FanOut(ips, fetch, same).responses;
    forall x | x in ls
      ensures x in r || Contains(r, x, same)
    {
      var j :| 0 <= j < |ls| && ls[j] == x;
      if x in mid {
        var i :| 0 <= i < |mid| && mid[i] == x;
        assert r[..|mid|][i] == x;
      } else {
        var i :| 0 <= i < |mid| && same(mid[i], x);
        assert r[..|mid|][i] == mid[i];
      }
    }
  }

  /** The fetch of one resolved address: GetDataWithCustomInput with the
      domain as the input shown on the records. */
  function FetchAs(base: Client.Url, ready: bool, env: Env, domain: string): string -> Outcome<seq<Response>>
  {
    (ip: string) => Client.GetDataWithCustomInputSpec(base, ready, ip, domain, env.apiKey, env.transport,
                                                      env.decode, env.metadata)
  }

  /** The records gathered for a domain all carry the domain as their input. */
  lemma DomainRecordsCarryDomain(base: Client.Url, ready: bool, env: Env, domain: string, ips: seq<string>)
    ensures forall x :: x in FanOut(ips, FetchAs(base, ready, env, domain), env.same).responses ==> x.input == domain
  {
    var fetch := FetchAs(base, ready, env, domain);
    FanOutNoDupAndOrigin(ips, fetch, env.same);
    forall x | x in FanOut(ips, fetch, env.same).responses
      ensures x.input == domain
    {
      var k :| 0 <= k < |ips| && fetch(ips[k]).Ok? && x in fetch(ips[k]).value;
      Client.CustomInputMeaning(base, ready, ips[k], domain, env.apiKey, env.transport, env.decode, env.metadata);
    }
  }

  // ------------------------------------------------------------------ writing

  /** The write loop of a domain: one writeOutput call per record, stopping
      at the first error. */
  function WriteEach(o: Options, s: Sink, rs: seq<Response>, cidrOf: CidrOracle, now: string): Written
  {
    if rs == [] then Written(s, None)
    else
      var w := WriteEach(o, s, rs[..|rs| - 1], cidrOf, now);
      if w.err.Some? then w else WriteOutputSpec(o, w.sink, [rs[|rs| - 1]], cidrOf, now)
  }

  /** After a write error the remaining records are not written. */
  lemma {:induction false} WriteEachStops(o: Options, s: Sink, rs: seq<Response>, i: nat, cidrOf: CidrOracle, now: string)
    requires i <= |rs| && WriteEach(o, s, rs[..i], cidrOf, now).err.Some?
    ensures WriteEach(o, s, rs, cidrOf, now) == WriteEach(o, s, rs[..i], cidrOf, now)
    decreases |rs| - i
  {
    if i < |rs| {
      assert rs[..i + 1][..i] == rs[..i];
      WriteEachStops(o, s, rs, i + 1, cidrOf, now);
    } else {
      assert rs[..i] == rs;
    }
  }

  /** One batch per record, each holding that record alone, in order. */
  function Singles(rs: seq<Response>): (batches: seq<seq<Response>>)
    ensures |batches| == |rs|
    ensures forall k :: 0 <= k < |rs| ==> batches[k] == [rs[k]]
  {
    seq(|rs|, k requires 0 <= k < |rs| => [rs[k]])
  }

  /** What the write loop hands to OnResult (when it is set): every record
      alone, in order, when no write fails; otherwise the records up to and
      including the first one whose write fails, and that write's error is the
      loop's. */
  lemma {:induction false} WriteEachDelivers(o: Options, s: Sink, rs: seq<Response>, cidrOf: CidrOracle, now: string)
    ensures var w := WriteEach(o, s, rs, cidrOf, now);
            w.err.None? ==> w.sink.delivered == s.delivered + (if o.hasOnResult then Singles(rs) else [])
    ensures var w := WriteEach(o, s, rs, cidrOf, now);
            w.err.Some? ==>
              exists i :: 0 <= i < |rs| && WriteEach(o, s, rs[..i], cidrOf, now).err.None? &&
                          w.err == WriteOutputSpec(o, s, [rs[i]], cidrOf, now).err &&
                          w.sink.delivered == s.delivered + (if o.hasOnResult then Singles(rs[..i + 1]) else [])
    decreases |rs|
  {
    if rs != [] {
      var n := |rs| - 1;
      var w := WriteEach(o, s, rs[..n], cidrOf, now);
      WriteEachDelivers(o, s, rs[..n], cidrOf, now);
      if w.err.Some? {
        var i :| 0 <= i < n && WriteEach(o, s, rs[..n][..i], cidrOf, now).err.None? &&
                 w.err == WriteOutputSpec(o, s, [rs[..n][i]], cidrOf, now).err &&
                 w.sink.delivered == s.delivered + (if o.hasOnResult then Singles(rs[..n][..i + 1]) else []);
        assert rs[..n][..i] == rs[..i] && rs[..n][..i + 1] == rs[..i + 1];
      } else {
        WriteErrorIgnoresSink(o, w.sink, s, [rs[n]], cidrOf, now);
        assert Singles(rs) == Singles(rs[..n]) + [[rs[n]]];
        assert rs[..n + 1] == rs;
      }
    }
  }

  /** The write loop returns no error exactly when writing each record alone
      returns none. */
  lemma {:induction false} WriteEachNilIff(o: Options, s: Sink, rs: seq<Response>, cidrOf: CidrOracle, now: string)
    ensures WriteEach(o, s, rs, cidrOf, now).err.None? <==>
            forall k :: 0 <= k < |rs| ==> WriteOutputSpec(o, s, [rs[k]], cidrOf, now).err.None?
    decreases |rs|
  {
    if rs != [] {
      var n := |rs| - 1;
      var w := WriteEach(o, s, rs[..n], cidrOf, now);
      WriteEachNilIff(o, s, rs[..n], cidrOf, now);
      WriteErrorIgnoresSink(o, w.sink, s, [rs[n]], cidrOf, now);
      assert forall k :: 0 <= k < n ==> rs[..n][k] == rs[k];
    }
  }

  /** When every record carries `item` as input, the write loop keeps the
      batches handed over before and adds only single records carrying `item`. */
  lemma WriteEachCarries(o: Options, s: Sink, rs: seq<Response>, cidrOf: CidrOracle, now: string, item: string)
    requires forall x :: x in rs ==> x.input == item
    ensures var d := WriteEach(o, s, rs, cidrOf, now).sink.delivered;
            |s.delivered| <= |d| && d[..|s.delivered|] == s.delivered &&
            (forall k :: |s.delivered| <= k < |d| ==> |d[k]| == 1 && d[k][0].input == item)
  {
    var w := WriteEach(o, s, rs, cidrOf, now);
    WriteEachDelivers(o, s, rs, cidrOf, now);
    var m := if w.err.None? then |rs|
             else var i :| 0 <= i < |rs| && WriteEach(o, s, rs[..i], cidrOf, now).err.None? &&
                           w.err == WriteOutputSpec(o, s, [rs[i]], cidrOf, now).err &&
                           w.sink.delivered == s.delivered + (if o.hasOnResult then Singles(rs[..i + 1]) else []);
                  i + 1;
    assert rs[..|rs|] == rs;
    var added := if o.hasOnResult then Singles(rs[..m]) else [];
    assert w.sink.delivered == s.delivered + added;
    forall k | |s.delivered| <= k < |w.sink.delivered|
      ensures |w.sink.delivered[k]| == 1 && w.sink.delivered[k][0].input == item
    {
      var j := k - |s.delivered|;
      assert w.sink.delivered[k] == added[j] == [rs[j]];
    }
  }

  // ----------------------------------------------------------------- visiting

  /** The outcome of the Scan callback for one input: the sink afterwards, the
      last error it recorded in errProcess, and the error it returned. */
  datatype Step = Step(sink: Sink, recorded: Option<string>, cbErr: Option<string>)

  /** The callback for a domain: one that does not resolve, or resolves to
      nothing, is skipped quietly; otherwise its addresses are fanned out (a
      fetch error is recorded and ends the fan-out) and the gathered records
      are written one by one (a write error is recorded and returned). */
  function DomainStep(o: Options, base: Client.Url, ready: bool, env: Env, s: Sink, item: string): Step
  {
    match env.resolve(item)
    case Err(_) => Step(s, None, None)
    case Ok(ips) =>
      if ips == [] then Step(s, None, None)
      else
        var g := FanOut(ips, FetchAs(base, ready, env, item), env.same);
        var w := WriteEach(o, s, g.responses, env.cidrOf, env.now);
        if w.err.Some? then Step(w.sink, w.err, w.err) else Step(w.sink, g.err, None)
  }

  /** The callback for any other input: fetched in one go (a fetch error is
      recorded and returned) and, when not empty, written in one call (a write
      error is recorded and returned). */
  function OtherStep(o: Options, base: Client.Url, ready: bool, env: Env, s: Sink, item: string): Step
  {
    match Client.GetDataSpec(base, ready, item, env.apiKey, env.transport, env.decode, env.metadata)
    case Err(e) => Step(s, Some(e), Some(e))
    case Ok(ls) =>
      if ls == [] then Step(s, None, None)
      else
        var w := WriteOutputSpec(o, s, ls, env.cidrOf, env.now);
        Step(w.sink, w.err, w.err)
  }

  /** The Scan callback for one input. */
  function VisitSpec(o: Options, base: Client.Url, ready: bool, env: Env, s: Sink, item: string): Step
  {
    if IdentifyInput(item) == Domain then DomainStep(o, base, ready, env, s, item)
    else OtherStep(o, base, ready, env, s, item)
  }

  /** A domain that fails to resolve or has no addresses writes nothing,
      records nothing and lets the scan go on. */
  lemma QuietDomain(o: Options, base: Client.Url, ready: bool, env: Env, s: Sink, item: string)
    requires IdentifyInput(item) == Domain
    requires env.resolve(item).Err? || env.resolve(item).value == []
    ensures VisitSpec(o, base, ready, env, s, item) == Step(s, None, None)
  {
  }

  /** For a domain: every batch handed to OnResult is one record carrying the
      domain as input; the callback returns only write errors; when none
      occurs, every gathered record (also those gathered before a fetch error
      ended the fan-out) is handed over alone, in gathered order, and the
      fetch error, if any, is recorded; when a write fails, the records up to
      and including the failing one have been handed over. */
  lemma DomainVisit(o: Options, base: Client.Url, ready: bool, env: Env, s: Sink, item: string)
    requires IdentifyInput(item) == Domain
    ensures var st := VisitSpec(o, base, ready, env, s, item);
            |s.delivered| <= |st.sink.delivered| && st.sink.delivered[..|s.delivered|] == s.delivered &&
            (forall k :: |s.delivered| <= k < |st.sink.delivered| ==>
               |st.sink.delivered[k]| == 1 && st.sink.delivered[k][0].input == item)
    ensures var st := VisitSpec(o, base, ready, env, s, item);
            st.cbErr.Some? ==> st.recorded == st.cbErr
    ensures var st := VisitSpec(o, base, ready, env, s, item);
            env.resolve(item).Ok? && env.resolve(item).value != [] ==>
              var g := FanOut(env.resolve(item).value, FetchAs(base, ready, env, item), env.same);
              (st.cbErr.None? <==>
                 forall k :: 0 <= k < |g.responses| ==> WriteOutputSpec(o, s, [g.responses[k]], env.cidrOf, env.now).err.None?) &&
              (st.cbErr.None? ==>
                 st.recorded == g.err &&
                 st.sink.delivered == s.delivered + (if o.hasOnResult then Singles(g.responses) else [])) &&
              (st.cbErr.Some? ==>
                 exists i :: 0 <= i < |g.responses| &&
                             st.cbErr == WriteOutputSpec(o, s, [g.responses[i]], env.cidrOf, env.now).err &&
                             st.sink.delivered == s.delivered + (if o.hasOnResult then Singles(g.responses[..i + 1]) else []))
  {
    match env.resolve(item)
    case Err(_) =>
    case Ok(ips) =>
      if ips != [] {
        var g := FanOut(ips, FetchAs(base, ready, env, item), env.same);
        WriteEachDelivers(o, s, g.responses, env.cidrOf, env.now);
        WriteEachNilIff(o, s, g.responses, env.cidrOf, env.now);
        DomainRecordsCarryDomain(base, ready, env, item, ips);
        WriteEachCarries(o, s, g.responses, env.cidrOf, env.now, item);
      }
  }

  /** For any other input: a fetch error is recorded and returned with nothing
      written; an empty answer does nothing; otherwise writeOutput is called
      exactly once, with the whole answer. */
  lemma OtherVisit(o: Options, base: Client.Url, ready: bool, env: Env, s: Sink, item: string)
    requires IdentifyInput(item) != Domain
    ensures var st := VisitSpec(o, base, ready, env, s, item);
            var got := Client.GetDataSpec(base, ready, item, env.apiKey, env.transport, env.decode, env.metadata);
            (got.Err? ==> st == Step(s, Some(got.msg), Some(got.msg))) &&
            (got.Ok? && got.value == [] ==> st == Step(s, None, None)) &&
            (got.Ok? && got.value != [] ==>
               var w := WriteOutputSpec(o, s, got.value, env.cidrOf, env.now);
               st.sink == w.sink && st.recorded == w.err && st.cbErr == w.err &&
               st.sink.delivered == s.delivered + (if o.hasOnResult then [got.value] else []))
  {
  }

  // --------------------------------------------------------------- processing

  /** The state of process after a prefix of the scan: the sink, errProcess,
      and whether the scan has stopped. */
  datatype Progress = Progress(sink: Sink, errProcess: Option<string>, halted: bool)

  /** The callback with the runner's options, client endpoint and environment fixed. */
  function Visitor(o: Options, base: Client.Url, ready: bool, env: Env): (Sink, string) -> Step
  {
    (s: Sink, item: string) => VisitSpec(o, base, ready, env, s, item)
  }

  /** process as a value, for the scan order `items` and a callback `visit`:
      each input is visited in turn; errProcess holds the last error recorded;
      when the scan stops on a callback error (`stopOnError`), the remaining
      inputs are not visited. */
  function ProcessSpec(visit: (Sink, string) -> Step, start: Sink, items: seq<string>, stopOnError: bool): Progress
  {
    if items == [] then Progress(start, None, false)
    else
      var p := ProcessSpec(visit, start, items[..|items| - 1], stopOnError);
      if p.halted then p
      else
        var st := visit(p.sink, items[|items| - 1]);
        Progress(st.sink, if st.recorded.Some? then st.recorded else p.errProcess, stopOnError && st.cbErr.Some?)
  }

  /** Once the scan has stopped, later inputs change nothing. */
  lemma {:induction false} ProcessStops(visit: (Sink, string) -> Step, start: Sink, items: seq<string>,
                                        i: nat, stopOnError: bool)
    requires i <= |items| && ProcessSpec(visit, start, items[..i], stopOnError).halted
    ensures ProcessSpec(visit, start, items, stopOnError) == ProcessSpec(visit, start, items[..i], stopOnError)
    decreases |items| - i
  {
    if i < |items| {
      assert items[..i + 1][..i] == items[..i];
      ProcessStops(visit, start, items, i + 1, stopOnError);
    } else {
      assert items[..i] == items;
    }
  }

  /** One more input visited, when the scan has not stopped. */
  lemma ProcessStep(visit: (Sink, string) -> Step, start: Sink, items: seq<string>, i: nat, stopOnError: bool,
                    st: Step, err: Option<string>)
    requires i < |items| && ProcessSpec(visit, start, items[..i], stopOnError).halted == false
    requires ProcessSpec(visit, start, items[..i], stopOnError).errProcess == err
    requires st == visit(ProcessSpec(visit, start, items[..i], stopOnError).sink, items[i])
    ensures ProcessSpec(visit, start, items[..i + 1], stopOnError) ==
            Progress(st.sink, if st.recorded.Some? then st.recorded else err, stopOnError && st.cbErr.Some?)
  {
    assert items[..i + 1][..i] == items[..i];
  }

  /** The input at `k` records no error, or is not visited because the scan
      stopped before it. */
  predicate QuietAt(visit: (Sink, string) -> Step, start: Sink, items: seq<string>, k: nat, stopOnError: bool)
    requires k < |items|
  {
    var p := ProcessSpec(visit, start, items[..k], stopOnError);
    !p.halted ==> visit(p.sink, items[k]).recorded.None?
  }

  /** process returns nil exactly when no visited input recorded an error in
      errProcess; an input is visited when the scan has not stopped before it. */
  lemma {:induction false} ProcessNilIff(visit: (Sink, string) -> Step, start: Sink, items: seq<string>, stopOnError: bool)
    ensures ProcessSpec(visit, start, items, stopOnError).errProcess.None? <==>
            forall k :: 0 <= k < |items| ==> QuietAt(visit, start, items, k, stopOnError)
    decreases |items|
  {
    if items != [] {
      var n := |items| - 1;
      var prefix := items[..n];
      ProcessNilIff(visit, start, prefix, stopOnError);
      forall k | 0 <= k < n
        ensures QuietAt(visit, start, items, k, stopOnError) == QuietAt(visit, start, prefix, k, stopOnError)
      {
        assert items[..k] == prefix[..k];
      }
      var p := ProcessSpec(visit, start, prefix, stopOnError);
      assert QuietAt(visit, start, items, n, stopOnError) <==> (!p.halted ==> visit(p.sink, items[n]).recorded.None?);
      if p.halted {
        assert ProcessSpec(visit, start, items, stopOnError) == p;
      }
    }
  }

  // ------------------------------------------------------------------ runner

  /** The runner: its options, the store of inputs, the client, and the sink
      that records what writeOutput produced. */
  class Runner {
    const options: Options
    var hm: set<string>
    const client: Client.Client
    var sink: Sink

    constructor (options: Options, client: Client.Client)
      ensures this.options == options && this.client == client
      ensures hm == {} && sink == Sink([], [])
    {
      this.options := options;
      this.client := client;
      hm := {};
      sink := Sink([], []);
    }

    /** setItem: stores the trimmed value unless it is empty. */
    method SetItem(v: string)
      modifies this`hm
      ensures hm == old(hm) + ItemOf(v)
    {
      var item := TrimSpace(v);
      if item != "" {
        hm := hm + {item};
      }
    }

    /** One of prepareInput's loops: setItem on every value of a list. */
    method SetAll(items: seq<string>)
      modifies this`hm
      ensures hm == old(hm) + StoreOf(items)
    {
      for i := 0 to |items|
        invariant hm == old(hm) + StoreOf(items[..i])
      {
        assert items[..i + 1][..i] == items[..i];
        SetItem(items[i]);
      }
      assert items[..|items|] == items;
    }

    /** prepareInput: a fresh store, filled from stdin (its lines, when it has
        data), FileInput, Asn, Ip, Domain and Org in that order. `storeErr` is
        the error of creating the store, after which the store stays empty. */
    method PrepareInput(stdin: Option<seq<string>>, storeErr: Option<string>) returns (err: Option<string>)
      modifies this`hm
      ensures storeErr.Some? ==> err == storeErr && hm == {}
      ensures storeErr.None? ==> err.None? && hm == StoreOf(Sources(options, stdin))
    {
      hm := {};
      if storeErr.Some? {
        return storeErr;
      }
      if stdin.Some? {
        SetAll(stdin.value);
      }
      assert hm == StoreOf(Entries(stdin));
      SetAll(Entries(options.fileInput));
      SetAll(Entries(options.asn));
      SetAll(Entries(options.ip));
      SetAll(Entries(options.domain));
      SetAll(Entries(options.org));
      StoreOfSources(options, stdin);
      return None;
    }

    /** filterIPv6: every block when IPv6 display is on, otherwise the IPv4
        blocks in order. */
    method FilterIPv6(ipsnet: seq<string>) returns (kept: seq<string>)
      ensures options.displayIPv6 ==> kept == ipsnet
      ensures !options.displayIPv6 ==> kept == KeepIPv4(ipsnet)
    {
      if options.displayIPv6 {
        return ipsnet;
      }
      kept := [];
      for i := 0 to |ipsnet|
        invariant kept == KeepIPv4(ipsnet[..i])
      {
        assert ipsnet[..i + 1][..i] == ipsnet[..i];
        var value := Before(ipsnet[i], '/');
        if IpAddr.IsIPv4(value) {
          kept := kept + [ipsnet[i]];
        }
      }
      assert ipsnet[..|ipsnet|] == ipsnet;
    }

    /** writeOutput: the callback first, then nothing more without an Output;
        otherwise JSON, CSV or plain CIDR lines, or the error that stopped it. */
    method WriteOutput(output: seq<Response>, env: Env) returns (err: Option<string>)
      modifies this`sink
      ensures Written(sink, err) == WriteOutputSpec(options, old(sink), output, env.cidrOf, env.now)
    {
      if options.hasOnResult {
        sink := sink.(delivered := sink.delivered + [output]);
      }
      if !options.hasOutput {
        return None;
      }
      if options.displayInJSON {
        var results := MapToResults(output, env.cidrOf, env.now);
        if results.Err? {
          return Some(results.msg);
        }
        var rs := results.value;
        sink := sink.(lines := sink.lines + seq(|rs|, i requires 0 <= i < |rs| => JsonRecord(rs[i])));
      } else if options.displayInCSV {
        var results := MapToResults(output, env.cidrOf, env.now);
        if results.Err? {
          return Some(results.msg);
        }
        var records := BuildCsvRecords(results.value);
        sink := sink.(lines := sink.lines + seq(|records|, i requires 0 <= i < |records| => CsvRecord(records[i])));
      } else {
        var cidrs := env.cidrOf(output);
        if cidrs.Err? {
          return Some(cidrs.msg);
        }
        var result := FilterIPv6(cidrs.value);
        sink := sink.(lines := sink.lines + seq(|result|, i requires 0 <= i < |result| => CidrLine(result[i])));
      }
      return None;
    }

    /** The fan-out loop of process for a resolved domain: GetDataWithCustomInput
        for each address, keeping the records not yet gathered, until the
        first fetch error. */
    method Gather(ips: seq<string>, item: string, env: Env, ghost base: Client.Url)
      returns (responses: seq<Response>, fetchErr: Option<string>)
      requires Client.SameEndpoint(client.url, base)
      modifies client
      ensures Client.SameEndpoint(client.url, base)
      ensures Gathered(responses, fetchErr) == FanOut(ips, FetchAs(base, client.ready, env, item), env.same)
    {
      ghost var fetch := FetchAs(base, client.ready, env, item);
      responses := [];
      fetchErr := None;
      var i := 0;
      while i < |ips|
        invariant 0 <= i <= |ips|
        invariant FanOut(ips[..i], fetch, env.same) == Gathered(responses, None)
        invariant Client.SameEndpoint(client.url, base)
      {
        assert ips[..i + 1][..i] == ips[..i];
        var ls := FetchOne(ips[i], item, env, base);
        if ls.Err? {
          fetchErr := Some(ls.msg);
          FanOutStops(ips, i + 1, fetch, env.same);
          return;
        }
        assert ls == fetch(ips[i]);
        FanOutStep(ips, i, fetch, env.same);
        responses := AddAbsent(responses, ls.value, env.same);
        i := i + 1;
      }
      assert ips[..i] == ips;
    }

    /** One lookup of the fan-out: GetDataWithCustomInput for the address, with
        the domain shown as input; the query left on the URL plays no part. */
    method FetchOne(ip: string, item: string, env: Env, ghost base: Client.Url)
      returns (ls: Outcome<seq<Response>>)
      requires Client.SameEndpoint(client.url, base)
      modifies client
      ensures Client.SameEndpoint(client.url, base)
      ensures ls == FetchAs(base, client.ready, env, item)(ip)
    {
      Client.EndpointOnly(client.url, base, client.ready, ip, item, env.apiKey, env.transport,
                          env.decode, env.metadata);
      ls := client.GetDataWithCustomInput(ip, item, env.apiKey, env.transport, env.decode, env.metadata);
    }

    /** The inner loop of process for a domain: each record not yet gathered
        (by sliceutil.Contains) is appended. */
    method AddAbsent(acc: seq<Response>, ls: seq<Response>, same: (Response, Response) -> bool)
      returns (responses: seq<Response>)
      ensures responses == AppendAbsent(acc, ls, same)
    {
      responses := acc;
      for j := 0 to |ls|
        invariant responses == AppendAbsent(acc, ls[..j], same)
      {
        assert ls[..j + 1][..j] == ls[..j];
        if !Contains(responses, ls[j], same) {
          responses := responses + [ls[j]];
        }
      }
      assert ls[..|ls|] == ls;
    }

    /** The write loop of process for a domain: writeOutput with each record
        alone, stopping at the first error. */
    method WriteAll(rs: seq<Response>, env: Env) returns (err: Option<string>)
      modifies this`sink
      ensures Written(sink, err) == WriteEach(options, old(sink), rs, env.cidrOf, env.now)
    {
      for k := 0 to |rs|
        invariant WriteEach(options, old(sink), rs[..k], env.cidrOf, env.now) == Written(sink, None)
      {
        assert rs[..k + 1][..k] == rs[..k];
        err := WriteOutput([rs[k]], env);
        if err.Some? {
          WriteEachStops(options, old(sink), rs, k + 1, env.cidrOf, env.now);
          return;
        }
      }
      assert rs[..|rs|] == rs;
      return None;
    }

    /** The Scan callback for a domain; `errIn` and `errOut` are errProcess
        before and after, `cbErr` what the callback returns. */
    method VisitDomain(item: string, env: Env, errIn: Option<string>, ghost base: Client.Url)
      returns (errOut: Option<string>, cbErr: Option<string>)
      requires Client.SameEndpoint(client.url, base)
      modifies this`sink, client
      ensures Client.SameEndpoint(client.url, base)
      ensures var st := DomainStep(options, base, client.ready, env, old(sink), item);
              sink == st.sink && cbErr == st.cbErr && errOut == (if st.recorded.Some? then st.recorded else errIn)
    {
      errOut := errIn;
      cbErr := None;
      var resolved := env.resolve(item);
      if resolved.Err? {
        return;
      }
      var ips := resolved.value;
      if |ips| == 0 {
        return;
      }
      var responses, fetchErr := Gather(ips, item, env, base);
      if fetchErr.Some? {
        errOut := fetchErr;
      }
      var e := WriteAll(responses, env);
      if e.Some? {
        errOut := e;
        cbErr := e;
      }
    }

    /** The Scan callback for an input that is not a domain. */
    method VisitOther(item: string, env: Env, errIn: Option<string>, ghost base: Client.Url)
      returns (errOut: Option<string>, cbErr: Option<string>)
      requires Client.SameEndpoint(client.url, base)
      modifies this`sink, client
      ensures Client.SameEndpoint(client.url, base)
      ensures var st := OtherStep(options, base, client.ready, env, old(sink), item);
              sink == st.sink && cbErr == st.cbErr && errOut == (if st.recorded.Some? then st.recorded else errIn)
    {
      errOut := errIn;
      cbErr := None;
      Client.EndpointOnly(client.url, base, client.ready, item, item, env.apiKey, env.transport,
                          env.decode, env.metadata);
      var ls := client.GetData(item, env.apiKey, env.transport, env.decode, env.metadata);
      if ls.Err? {
        errOut := Some(ls.msg);
        cbErr := errOut;
        return;
      }
      if |ls.value| == 0 {
        return;
      }
      var e := WriteOutput(ls.value, env);
      if e.Some? {
        errOut := e;
        cbErr := e;
      }
    }

    /** The Scan callback of process for one input. */
    method Visit(item: string, env: Env, errIn: Option<string>, ghost base: Client.Url)
      returns (errOut: Option<string>, cbErr: Option<string>)
      requires Client.SameEndpoint(client.url, base)
      modifies this`sink, client
      ensures Client.SameEndpoint(client.url, base)
      ensures var st := Visitor(options, base, client.ready, env)(old(sink), item);
              sink == st.sink && cbErr == st.cbErr && errOut == (if st.recorded.Some? then st.recorded else errIn)
    {
      if IdentifyInput(item) == Domain {
        errOut, cbErr := VisitDomain(item, env, errIn, base);
      } else {
        errOut, cbErr := VisitOther(item, env, errIn, base);
      }
    }

    /** process: visits the store in the scan order `order`, which lists every
        stored input once; `stopOnError` says whether the scan stops when the
        callback returns an error. The result is errProcess. */
    method Process(order: seq<string>, env: Env, stopOnError: bool) returns (errProcess: Option<string>)
      requires forall i, j :: 0 <= i < j < |order| ==> order[i] != order[j]
      requires forall x :: x in hm <==> x in order
      modifies this`sink, client
      ensures Client.SameEndpoint(client.url, old(client.url))
      ensures var p := ProcessSpec(Visitor(options, old(client.url), client.ready, env), old(sink), order, stopOnError);
              sink == p.sink && errProcess == p.errProcess
    {
      ghost var visit := Visitor(options, client.url, client.ready, env);
      ghost var base := client.url;
      errProcess := None;
      var i := 0;
      while i < |order|
        invariant 0 <= i <= |order|
        invariant ProcessSpec(visit, old(sink), order[..i], stopOnError) == Progress(sink, errProcess, false)
        invariant Client.SameEndpoint(client.url, base)
      {
        ghost var before := sink;
        ghost var errBefore := errProcess;
        var cbErr;
        errProcess, cbErr := Visit(order[i], env, errProcess, base);
        ProcessStep(visit, old(sink), order, i, stopOnError, visit(before, order[i]), errBefore);
        if stopOnError && cbErr.Some? {
          ProcessStops(visit, old(sink), order, i + 1, stopOnError);
          return;
        }
        assert ProcessSpec(visit, old(sink), order[..i + 1], stopOnError) == Progress(sink, errProcess, false);
        i := i + 1;
      }
      assert order[..i] == order;
    }
  }
}
