# asnmap in Dafny

A model of the core of asnmap, with proofs about it. asnmap is a command-line tool and library. It turns a query into the ownership data of the address ranges behind it, using a remote lookup service. A query is an IP address, an AS number ("AS14421" or "14421"), an organisation name or a domain. The tool then prints those ranges as JSON records, CSV rows or plain CIDR blocks. The model covers the following:

- **Types** (`libs/types.go`):
  - the lookup record and the output record;
  - record equality;
  - the classifier that decides what kind of query a string is;
  - the mapping from a lookup record to an output record, including the "AS" prefix rule.
- **Client** (`libs/client.go`):
  - building the request URL;
  - making the request and deciding on the reply;
  - choosing the query parameter for each kind of query;
  - stamping the query onto the decoded records.
  The client's URL is shared between calls, so `Client.Client` is a class whose `url` field each call overwrites.
- **RunnerOptions** (`runner/options.go`): option validation.
- **RunnerOutput** (`runner/output.go`): what one `writeOutput` call produces.
  - The callback sees the batch first.
  - JSON wins over CSV, and CSV wins over plain CIDR lines.
  - In plain mode, IPv6 blocks are dropped unless asked for.
- **Runner** (`runner/runner.go`): a class holding the options, the store of inputs, the client and a sink that records what was written.
  - `prepareInput` fills the store, trimming and de-duplicating.
  - `process` walks the store. A domain is resolved and fanned out over its addresses, the records are gathered without duplicates, and each is written alone. Any other query is fetched and written in one call.
- **LegacyFormatter** (`libs/formatter.go`): the earlier revision's CSV and JSON formatter. Its `attachPrefix` is the same rule as `Types.AttachPrefix`, so one definition serves both.
- **LegacyOutput** (`cmd/asnmap/output.go`): the earlier revision's IPv6 filter, which counts colons.

Go's library behaviour that the core depends on is modelled in supporting modules:

- `Text`: `strings.TrimSpace` with `unicode.IsSpace`, `Split`, `Join`, `Count`, and ASCII case folding.
- `Strconv`: `Atoi` and `Itoa` on a 64-bit `int`.
- `IpAddr`: the textual address rules of `net.ParseIP`.
- `Base`: `Option`, `Outcome` and subsequences.

## Parameters standing in for the outside world

- DNS resolution is a function `Resolver` from a domain to its addresses or an error.
- The HTTP transport is a function `Client.Transport` from a request to a reply (status, body, read error) or a transport error.
- JSON decoding of the reply is `Client.Decoder`, and JSON encoding of a record is `LegacyFormatter.Encoder`.
- `GetCIDR` is `Types.CidrOracle`, or `LegacyFormatter.LegacyCidrOracle` for the earlier revision. That one has no error result, because it ends the process when a range cannot be converted.
- The clock reading (`time.Now().Local().String()`) is a string `now`. It is read once per run or call, not once per record (see "## Left out").
- The result of `url.Parse` is an `Outcome<Url>` argument.
- Whether stdin has data and the config-file path are arguments of `ValidateOptions`. The lines read from stdin are an argument of `PrepareInput`.
- The store is a set of strings. The order in which `hm.Scan` visits it is an argument `order` of `Runner.Runner.Process`, which must list the store exactly once. Whether Scan stops when the callback returns an error is an argument `stopOnError`.
- The comparison `sliceutil.Contains` applies is an argument `same`.
- The query parameters that `updateutils.GetpdtmParams` adds are an argument `metadata`.

## Where the code and its description differ

The model follows the code in each of these cases:

- The records of a domain's fan-out are de-duplicated with `sliceutil.Contains`, which compares whole records (`runner/runner.go:104`). It does not use `Response.Equal` (same AS number and organisation up to case). The comparison is therefore a parameter, and `Types.Equal` is modelled on its own.
- A failed lookup for one address of a domain does not skip that address and go on. It ends the fan-out and sets `errProcess` (`runner/runner.go:98-101`). The records gathered so far are still written (`Runner.DomainVisit`).
- Inputs are visited one at a time in the store's scan order. No concurrency is involved in the current revision.

## Model

| member | source | states |
|---|---|---|
| Types.EqualIgnoresRangeInputCountry | libs/types.go:34-36 | record equality looks only at the AS number and the organisation, compared without ASCII case |
| Types.EqualIsEquivalence | libs/types.go:34-36 | record equality is reflexive, symmetric and transitive |
| Types.CheckIfASNMeaning | libs/types.go:97-114 | checkIfASN holds exactly for "AS" in any case followed by one or more ASCII digits |
| Types.IdentifyInput | libs/types.go:116-129 | never Unknown; IP exactly for addresses; ASN exactly for "AS"+digits; ASNID exactly for digits; Domain exactly for non-addresses matching the domain pattern; Org for everything else |
| Types.DomainIsNotNumber | libs/types.go:49 | a string matching the domain pattern is neither "AS"+digits nor digits, so only the IP test must come first |
| Types.UndottedIsNumberOrOrg | libs/types.go:116-129 | a string without '.' or ':' is classified ASN, ASNID or Org |
| Types.ClassifierExamples | libs/types_test.go:16-19 | "AS14421" is an ASN; "PPLINKNET", "AS" and "AS-CHOOPA" are organisations |
| Types.LabelsClassify | libs/types.go:116-129 | two or more labels joined by dots split back into those labels, and are a domain unless they spell a dotted quad, which is an IP |
| Types.JoinedLabelsMatch | libs/types.go:49 | two or more labels joined by dots match the domain pattern, split back into the labels and hold no colon |
| Types.DottedDomain | libs/types.go:116-129 | labels joined by dots whose first label does not start with a digit are a domain |
| Types.ClassifierAddressExample | libs/types_test.go:15 | "10.101.101.10" is an IP |
| Types.ClassifierTwoLabelExamples | libs/types_test.go:20-22 | "google.com" and "cornell.edu" are domains |
| Types.ClassifierThreeLabelExamples | libs/types_test.go:21-25 | "bbc.co.uk", "bigstuff.cornell.edu" and "www.99acres.com" are domains |
| Types.ClassifierFourLabelExample | libs/types_test.go:24 | "www.bass.blm.gov" is a domain, though it has four fields like a dotted quad |
| IpAddr.DottedQuad | libs/types.go:118 | four decimal octets joined by dots are an IPv4 address |
| Text.SplitJoin | libs/types.go:49 | splitting at the separator gives back the parts that were joined with it |
| Types.AttachPrefixIff | libs/types.go:79-85 | attachPrefix prepends "AS" exactly when strconv.Atoi accepts the text, and otherwise returns it unchanged |
| Types.AttachPrefixOfNumber | libs/types.go:67 | the decimal form of any 64-bit AS number always gets its "AS" prefix |
| Types.AttachPrefixIdempotent | libs/types.go:79-85 | applying attachPrefix twice is applying it once |
| Types.MapToResult | libs/types.go:63-76 | fails exactly when GetCIDR fails, with its error; otherwise the record has ASN "AS"+decimal, prefixed input, copied organisation and country, the clock reading and GetCIDR's blocks |
| Types.MapAllMeaning | libs/types.go:51-61 | on success one result per response in input order; on failure the error of the first response that fails and no results |
| Types.PrefixErrorPropagates | libs/types.go:55-57 | once a prefix fails, the whole list fails with the same error |
| Types.MapToResults | libs/types.go:51-61 | the loop returns exactly the map-all value (results in order, or the first error) |
| Strconv.AtoiItoa | libs/types.go:67 | strconv.Atoi reads back what strconv.Itoa writes for every 64-bit int |
| IpAddr.IPHasSeparator | libs/types.go:118 | every text that net.ParseIP accepts holds '.' or ':' |
| Text.TrimSpace | runner/runner.go:139 | the result is the input minus leading and trailing white space, and neither starts nor ends with white space |
| Client.GenerateFullURL | libs/client.go:49-61 | a url.Parse error passes through; a scheme other than http/https (any case) is refused; otherwise scheme, host and query are kept and the path is the API path |
| Client.GenerateFullURLIdempotent | libs/client.go:49-61 | generating from a generated URL changes nothing |
| Client.MakeRequest | libs/client.go:166-204 | no http client or no key gives its error before any request; a transport error is returned unchanged; for a status other than 400 or 401 the body-read error is returned unchanged; success means a reply that is neither 400 nor 401 and was read fully, and its body is returned |
| Client.NoKeyNoRequest | libs/client.go:175-178 | with an empty key the outcome does not depend on the transport |
| Client.ReplyDecision | libs/client.go:185-203 | 401 gives the unauthorised error, 400 gives "bad request: " and the body, any other status read fully gives the body |
| Client.AsnStoredInput | libs/client.go:218-220 | for "AS"+digits the stored input is the digits alone |
| Client.KindParams | libs/client.go:217-229 | at most one parameter: asn for "AS"+digits (without the prefix) or digits, ip for addresses, org for organisations, none exactly for domains |
| Client.WithInput | libs/client.go:247-249 | same length, every record's input is the given text and nothing else changes |
| Client.WithInputTwice | libs/client.go:206-212 | stamping twice is stamping with the last text |
| Client.GetDataMeaning | libs/client.go:214-252 | on success exactly the decoded records, stamped with the stored input; on failure the request's or the decoder's error |
| Client.CustomInputMeaning | libs/client.go:206-212 | GetDataWithCustomInput returns GetData's records with the shown text as input, or GetData's error |
| Client.EndpointOnly | libs/client.go:233 | GetData depends on the client's URL only through scheme, host and path, since the query is overwritten |
| Client.StampInput | libs/client.go:247-249 | the stamping loop computes WithInput |
| Client.Client.GetData | libs/client.go:214-252 | the switch, request, decoding and stamping give the GetData value, and the client's URL keeps the query of this call |
| Client.Client.GetDataWithCustomInput | libs/client.go:206-212 | GetData then restamping gives the custom-input value, and the URL keeps the query of this call |
| RunnerOptions.AsnListValid | runner/options.go:78-84 | true exactly when every ASN begins with "AS" after upper-casing |
| RunnerOptions.ValidateOptions | runner/options.go:54-86 | verbose with silent is refused first; "no input" exactly when no source exists; acceptance implies at most one input kind, not JSON with CSV, and every ASN prefixed |
| RunnerOptions.ValidIff | runner/options.go:54-86 | the options pass exactly when all the checks hold |
| RunnerOptions.TwoKindsRefused | runner/options.go:63-71 | two input kinds together are refused with the message of the first of asn, ip, org that is set |
| RunnerOptions.AsnPrefixExamples | runner/options.go:78-84 | "14421" is refused as an ASN while "ASX" passes: only the prefix is checked |
| RunnerOutput.KeepIPv4Meaning | runner/output.go:50-69 | the IPv4 filter keeps exactly the blocks whose address part is IPv4, in order, as a subsequence, and is idempotent |
| RunnerOutput.CsvRecords | runner/output.go:93-97 | one row per result in order, each with the six header columns and the ranges joined by "," |
| RunnerOutput.BuildCsvRecords | runner/output.go:93-97 | the row-building loop computes the CSV rows |
| RunnerOutput.WriteOutputSpec | runner/output.go:72-113 | the callback gets the batch in every mode; without an output nothing is written and no error returned; otherwise an error exactly when rendering fails, with nothing written, and the rendered lines otherwise |
| RunnerOutput.WriteErrorIgnoresSink | runner/output.go:72-113 | the error of a write depends only on the batch |
| RunnerOutput.JsonOverCsv | runner/output.go:80-92 | with JSON set, the CSV flag is ignored and every line is a JSON record |
| RunnerOutput.StructuredLines | runner/output.go:81-98 | JSON and CSV fail with the first record's mapping error, or give one line per record in order |
| RunnerOutput.PlainLines | runner/output.go:99-112 | plain mode prints one line per block in GetCIDR's order: all of them with IPv6 display, otherwise exactly the IPv4 filter's blocks, in that order |
| Runner.StoreOfSound | runner/runner.go:138-143 | everything stored is the non-empty trimmed text of some value |
| Runner.StoreOfComplete | runner/runner.go:138-143 | every value whose trimmed text is non-empty is stored trimmed |
| Runner.StoreOfMeaning | runner/runner.go:138-143 | the store holds exactly the non-empty trimmed values |
| Runner.StoreOfTrimmed | runner/runner.go:138-143 | no stored input is empty or begins or ends with white space |
| Runner.StoreOfConcat | runner/runner.go:145-179 | filling from two lists in turn is filling from their concatenation |
| Runner.StoreOfSources | runner/runner.go:151-176 | the store of all sources is the union of the stores of stdin, file input, asn, ip, domain and org |
| Runner.AsnEntriesStored | runner/runner.go:162-164 | every non-blank ASN flag reaches the store trimmed |
| Runner.AppendAbsentOrder | runner/runner.go:103-107 | appending the absent records keeps what was gathered in front and adds a subsequence of the new records |
| Runner.AppendAbsentNoDup | runner/runner.go:103-107 | with an equivalence as comparison, no two gathered records compare equal |
| Runner.AppendAbsentCovers | runner/runner.go:103-107 | every new record is gathered or compares equal to one that is |
| Runner.FanOutStep | runner/runner.go:95-108 | one more address adds the absent records of its lookup, or ends with its error |
| Runner.FanOutStops | runner/runner.go:98-101 | after a failed lookup the remaining addresses are not visited |
| Runner.FanOutGrows | runner/runner.go:95-108 | what was gathered after a prefix of the addresses stays in front |
| Runner.FanOutNoDupAndOrigin | runner/runner.go:95-108 | under equality no record is gathered twice, and every gathered record came from one address's lookup |
| Runner.FanOutCovers | runner/runner.go:95-108 | without a failure, every record of every lookup is gathered |
| Runner.DomainRecordsCarryDomain | runner/runner.go:95-108 | every record gathered for a domain carries the domain as its input |
| Runner.WriteEachStops | runner/runner.go:110-115 | the write loop stops at the first write error |
| Runner.WriteEachDelivers | runner/runner.go:110-115 | without a write error the callback gets every record alone, in order; otherwise it gets the records up to and including the first failing one, and that write's error is returned |
| Runner.WriteEachCarries | runner/runner.go:110-115 | when every gathered record carries the domain, the write loop adds only single records carrying it, after the batches handed over before |
| Runner.WriteEachNilIff | runner/runner.go:110-115 | the write loop returns no error exactly when writing each record alone returns none |
| Runner.QuietDomain | runner/runner.go:84-93 | a domain that does not resolve, or resolves to nothing, writes nothing, records nothing and lets the scan go on |
| Runner.DomainVisit | runner/runner.go:83-116 | for a domain the callback gets single records carrying the domain; only write errors stop the scan. Without a write error, every gathered record is handed over alone and in order, including those gathered before a fetch error ended the fan-out, and that fetch error is recorded. After a write error, the records up to and including the failing one have been handed over |
| Runner.OtherVisit | runner/runner.go:117-130 | any other query: a lookup error is recorded and returned with nothing written; an empty answer does nothing; otherwise one write with the whole answer |
| Runner.ProcessStops | runner/runner.go:80-134 | once the scan stops, later inputs change nothing |
| Runner.ProcessStep | runner/runner.go:80-134 | one more input visited updates the sink and the last recorded error |
| Runner.ProcessNilIff | runner/runner.go:78-136 | process returns nil exactly when no visited input recorded an error |
| Runner.Runner.SetItem | runner/runner.go:138-143 | adds the trimmed value unless it is empty |
| Runner.Runner.SetAll | runner/runner.go:158-160 | the loop adds every value's trimmed text |
| Runner.Runner.PrepareInput | runner/runner.go:145-179 | a store-creation error is returned with an empty store; otherwise the store holds exactly the items from all sources |
| Runner.Runner.FilterIPv6 | runner/output.go:50-69 | identity with IPv6 display, else exactly the IPv4 filter |
| Runner.Runner.WriteOutput | runner/output.go:72-113 | the new sink and the error are those of the writeOutput value |
| Runner.Runner.Gather | runner/runner.go:95-108 | the gathered records and the fetch error are those of the fan-out value, and the client keeps its endpoint |
| Runner.Runner.FetchOne | runner/runner.go:97 | one lookup of the fan-out gives the custom-input value for the address with the domain shown, and the client keeps its endpoint |
| Runner.Runner.AddAbsent | runner/runner.go:103-107 | the inner loop appends exactly the records not yet gathered |
| Runner.Runner.WriteAll | runner/runner.go:110-115 | writes each record alone and stops at the first error, as the write-each value says |
| Runner.Runner.VisitDomain | runner/runner.go:83-116 | the sink and errors are those of the domain step |
| Runner.Runner.VisitOther | runner/runner.go:117-130 | the sink and errors are those of the step for other queries |
| Runner.Runner.Visit | runner/runner.go:81-133 | one Scan callback, as the visitor value says |
| Runner.Runner.Process | runner/runner.go:78-136 | the sink and returned error are those of the process value for the scan order |
| LegacyFormatter.InitializeResult | libs/formatter.go:50-59 | ASN is "AS"+decimal; input is prefixed by the attachPrefix rule; organisation, country and GetCIDR's blocks are copied |
| LegacyFormatter.InitializeResultAsToday | libs/formatter.go:50-59 | when the current GetCIDR returns the old blocks, mapToResult builds the same record |
| LegacyFormatter.PrepareFormattedCSV | libs/formatter.go:70-75 | exactly six fields: timestamp, prefixed input, "AS"+decimal ASN, organisation, country, blocks joined by "," |
| LegacyFormatter.GetFormattedDataInCSV | libs/formatter.go:85-94 | one row per record, in input order, each the row of that record |
| LegacyFormatter.CsvRowsAsToday | libs/formatter.go:85-94 | when the current GetCIDR agrees, the old rows equal the rows the runner writes today |
| LegacyFormatter.GetFormattedDataInJson | libs/formatter.go:77-83 | the encodings of the records concatenated in order |
| LegacyFormatter.ConcatAppend | libs/formatter.go:77-83 | the JSON of two batches is the JSON of the first followed by that of the second: no separator |
| LegacyFormatter.JsonLayout | libs/formatter.go:77-83 | record k's encoding sits between the encodings of the records before and after it |
| LegacyFormatter.AsnRowExample | libs/formatter_test.go:58-72 | the row for AS 14421 with input "14421" |
| LegacyFormatter.IpRowExample | libs/formatter_test.go:99-113 | the row for an address input with three blocks in one column |
| LegacyOutput.IsIPv6TextIff | cmd/asnmap/output.go:18-20 | isIPv6 holds exactly when ':' occurs at two positions |
| LegacyOutput.AddressClasses | cmd/asnmap/output.go:18-20 | a dotted quad has no colon and is never taken for IPv6; every IPv6 address is |
| LegacyOutput.CidrAgreement | cmd/asnmap/output.go:41-53 | on address/prefix blocks the colon test agrees with the current revision's parse of the address part |
| LegacyOutput.KeepFewColonsMeaning | cmd/asnmap/output.go:41-53 | keeps exactly the blocks with fewer than two colons, in order, as a subsequence, and is idempotent |
| LegacyOutput.FilterIPv6 | cmd/asnmap/output.go:41-53 | identity with IPv6 display, else exactly the blocks with fewer than two colons |

The CSV header row (`runner/output.go:16`, and `cmd/asnmap/output.go:16` for the earlier revision) is `RunnerOutput.CsvHeaders`. Both revisions' rows are shown to have its six columns.

## Left out

- HTTP and TLS are not modelled: the client, proxies, `NewClient`, `SetProxy`, `init` and `getURL`. The environment and credential loading for the API key is also left out. The key is an argument, and `ready` says whether an http client exists.
- Errors from `http.NewRequest` are left out. The request is built from a URL the model already holds.
- DNS, the CIDR reduction behind `GetCIDR`, and JSON encoding and decoding are parameters. Their algorithms live in libraries.
- Client.MakeRequest: the logging calls are left out. Only the returned value is modelled.
- Runner.Runner.WriteOutput: write errors from the output writer (`writeToJson`, `writeToCsv`, `Fprintf`) are not modelled. Writing a rendered line always succeeds. Only mapping and `GetCIDR` errors are returned.
- Runner.Runner.Process: the hybrid map's internals and scan order are left out. The scan order and whether Scan stops on a callback error are arguments.
- Runner.Runner.PrepareInput: the bufio scanner's line-length limit is not modelled. Stdin arrives as its lines.
- Runner.Runner.Gather: it returns the fetch error, and VisitDomain then assigns `errProcess`. In the source the assignment happens inside the loop; the result is the same.
- Record pointers are modelled as values. Aliasing is not modelled, including the loop variable whose address `process` hands to `writeOutput` for a domain.
- `Text.EqualFoldAscii` and `Text.ToLowerAscii` fold ASCII letters only, where Go's `strings.EqualFold` and `strings.ToLower` fold all of Unicode.
- RunnerOutput.ShowsIPv4: an IPv4-mapped IPv6 text such as "::ffff:1.2.3.4" counts as IPv6. It is not treated as IPv4.
- `ParseOptions`, the banner and the goroutine and channel pipeline of the earlier command-line revision (`cmd/asnmap/asnmap.go`, `prepareOutput`, `writeOutput`) are left out. They are flag parsing and concurrency.
- LegacyFormatter.GetFormattedDataInJson: the fatal exit when `json.Marshal` fails is not modelled. A record made of strings always encodes.
- LegacyFormatter.InitializeResult: the process exit that GetCIDR in `libs/cidr.go` takes when a range cannot be converted is not modelled. The legacy oracle is total. The range conversion itself is a library call.
- Types.MapToResult and LegacyFormatter.InitializeResult: the source reads the clock for every record. The model reads it once: one `now` serves a whole `Process` run, and one serves a whole legacy CSV or JSON call. The model therefore does not capture records of one run carrying different timestamps.
- The file `libs/resolver.go` is not part of this model. Name resolution is the `Resolver` parameter.
