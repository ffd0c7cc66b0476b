/** The SPF evaluator: a subset of RFC 7208 over an arbitrary, possibly cyclic,
    DNS. A TXT record is the list of its whitespace-separated fields. */
module Spf {
  import opened Text
  import opened Cidr
  import opened Wrappers

  datatype Verdict = Pass | Fail | SoftFail | Neutral | PermError | TempError | NoRecord

  type Record = seq<string>
  datatype TxtAnswer = Records(records: seq<Record>) | NotFound | Failed

  /** What the resolvers answer, and how an address is read. */
  datatype Dns = Dns(
    txt: string -> TxtAnswer,
    ip: string -> Option<seq<IP>>,
    mx: string -> Option<seq<string>>,
    parse: string -> Option<IP>)

  const MAX_DNS_MECHANISMS := 10
  const MAX_INCLUDE_DEPTH := 10

  // ---- reading a term ----

  datatype Term = Term(qualifier: char, name: string, arg: string, modifier: bool)

  /** Name and argument, cut at the first colon. */
  function SplitColon(term: string): (r: (string, string))
    ensures ':' !in r.0
    ensures term == r.0 + if r.0 == term then "" else ":" + r.1
  {
    if term == "" then ("", "")
    else if term[0] == ':' then ("", term[1..])
    else var (name, arg) := SplitColon(term[1..]); ([term[0]] + name, arg)
  }

  function ParseTerm(field: string): Term {
    var qualified := field != "" && field[0] in "+-~?";
    var term := if qualified then field[1..] else field;
    var (name, arg) := SplitColon(term);
    Term(if qualified then field[0] else '+', name, arg, "redirect=" <= term || "exp=" <= term)
  }

  /** Modifiers and unsupported mechanisms never decide anything. */
  predicate Ignored(field: string) {
    var term := ParseTerm(field);
    term.modifier || term.name !in ["all", "ip4", "ip6", "a", "mx", "include"]
  }

  predicate IsAll(field: string) {
    !Ignored(field) && ParseTerm(field).name == "all"
  }

  function Qualified(qualifier: char): Verdict {
    match qualifier
    case '-' => Fail
    case '~' => SoftFail
    case '?' => Neutral
    case _ => Pass
  }

  // ---- a and mx ----

  datatype Match = Match(matched: bool) | LookupFailed

  predicate AnyMatch(addrs: seq<IP>, peer: IP, cidr: string) {
    exists i :: 0 <= i < |addrs| && IpMatchNetwork(addrs[i], peer, cidr)
  }

  function MatchHost(dns: Dns, arg: string, spfDomain: string, peer: string): Match {
    var (host, cidr) := SplitCidr(arg);
    match dns.parse(peer)
    case None => Match(false)
    case Some(addr) =>
      match dns.ip(if host == "" then spfDomain else host)
      case None => LookupFailed
      case Some(addrs) => Match(AnyMatch(addrs, addr, cidr))
  }

  predicate HostMatches(ip: string -> Option<seq<IP>>, host: string, peer: IP, cidr: string) {
    ip(host).Some? && AnyMatch(ip(host).value, peer, cidr)
  }

  /** Hosts whose own lookup fails are passed over. */
  predicate AnyHostMatches(ip: string -> Option<seq<IP>>, hosts: seq<string>, peer: IP, cidr: string) {
    exists i :: 0 <= i < |hosts| && HostMatches(ip, hosts[i], peer, cidr)
  }

  function MatchMx(dns: Dns, arg: string, spfDomain: string, peer: string): Match {
    var (host, cidr) := SplitCidr(arg);
    match dns.parse(peer)
    case None => Match(false)
    case Some(addr) =>
      match dns.mx(if host == "" then spfDomain else host)
      case None => LookupFailed
      case Some(hosts) => Match(AnyHostMatches(dns.ip, hosts, addr, cidr))
  }

  // ---- the evaluator ----

  /** A verdict together with the include evaluations spent on it. */
  datatype Outcome = Outcome(verdict: Verdict, includes: nat)

  predicate IsSpf(record: Record) {
    record != [] && "v=spf1" <= Lower(record[0])
  }

  /** The first v=spf1 record, or the empty one. */
  function SpfRecord(records: seq<Record>): Record {
    if records == [] then [] else if IsSpf(records[0]) then records[0] else SpfRecord(records[1..])
  }

  /** Evaluating the term runs an include. */
  predicate CallsInclude(field: string, mechCount: nat, depth: nat) {
    && !Ignored(field) && ParseTerm(field).name == "include"
    && mechCount + 1 <= MAX_DNS_MECHANISMS && depth + 1 <= MAX_INCLUDE_DEPTH
  }

  /** A term lets evaluation go on, with a new mechanism count, or decides. */
  datatype Event = Continue(mechCount: nat) | Decide(verdict: Verdict)

  function TermEvent(dns: Dns, field: string, domain: string, peer: string, mechCount: nat, depth: nat,
      included: Verdict): (e: Event)
    requires mechCount <= MAX_DNS_MECHANISMS
    ensures e.Continue? ==> mechCount <= e.mechCount <= MAX_DNS_MECHANISMS
    ensures e.Continue? && CallsInclude(field, mechCount, depth) ==> e.mechCount == mechCount + 1
    ensures Ignored(field) ==> e == Continue(mechCount)
    ensures IsAll(field) ==> e.Decide?
  {
    var term := ParseTerm(field);
    if Ignored(field) then Continue(mechCount)
    else if term.name == "all" then Decide(Qualified(term.qualifier))
    else if term.name == "ip4" || term.name == "ip6" then
      if IpMatch(dns.parse, term.arg, peer, if term.name == "ip4" then 32 else 128)
          then Decide(Qualified(term.qualifier)) else Continue(mechCount)
    else if mechCount + 1 > MAX_DNS_MECHANISMS || (term.name == "include" && depth + 1 > MAX_INCLUDE_DEPTH)
        then Decide(PermError)
    else if term.name == "include" then
      match included
      case PermError => Decide(PermError)
      case TempError => Decide(TempError)
      case Pass => Decide(Qualified(term.qualifier))
      case _ => Continue(mechCount + 1)
    else
      match if term.name == "a" then MatchHost(dns, term.arg, domain, peer) else MatchMx(dns, term.arg, domain, peer)
      case LookupFailed => Decide(TempError)
      case Match(matched) => if matched then Decide(Qualified(term.qualifier)) else Continue(mechCount + 1)
  }

  function EvalTerms(dns: Dns, terms: seq<string>, domain: string, peer: string, mechCount: nat, depth: nat): Outcome
    requires mechCount <= MAX_DNS_MECHANISMS && depth <= MAX_INCLUDE_DEPTH
    decreases MAX_INCLUDE_DEPTH - depth, 0, |terms|
  {
    if terms == [] then Outcome(Neutral, 0)
    else
      var included :=
        if CallsInclude(terms[0], mechCount, depth) then
          var inner := EvalInclude(dns, ParseTerm(terms[0]).arg, peer, depth + 1);
          Outcome(inner.verdict, 1 + inner.includes)
        else Outcome(Neutral, 0);
      match TermEvent(dns, terms[0], domain, peer, mechCount, depth, included.verdict)
      case Decide(verdict) => Outcome(verdict, included.includes)
      case Continue(count) =>
        var rest := EvalTerms(dns, terms[1..], domain, peer, count, depth);
        Outcome(rest.verdict, included.includes + rest.includes)
  }

  lemma EvalNothing(dns: Dns, domain: string, peer: string, mechCount: nat, depth: nat)
    requires mechCount <= MAX_DNS_MECHANISMS && depth <= MAX_INCLUDE_DEPTH
    ensures EvalTerms(dns, [], domain, peer, mechCount, depth) == Outcome(Neutral, 0)
  {
  }

  lemma EvalUnfolds(dns: Dns, terms: seq<string>, domain: string, peer: string, mechCount: nat, depth: nat,
      inner: Outcome)
    requires mechCount <= MAX_DNS_MECHANISMS && depth <= MAX_INCLUDE_DEPTH && terms != []
    requires depth + 1 <= MAX_INCLUDE_DEPTH && CallsInclude(terms[0], mechCount, depth) ==>
               inner == EvalInclude(dns, ParseTerm(terms[0]).arg, peer, depth + 1)
    requires !CallsInclude(terms[0], mechCount, depth) ==> inner == Outcome(Neutral, 0)
    ensures var event := TermEvent(dns, terms[0], domain, peer, mechCount, depth, inner.verdict);
            var spent := if CallsInclude(terms[0], mechCount, depth) then 1 + inner.includes else 0;
            EvalTerms(dns, terms, domain, peer, mechCount, depth) ==
            match event
            case Decide(verdict) => Outcome(verdict, spent)
            case Continue(count) =>
              var rest := EvalTerms(dns, terms[1..], domain, peer, count, depth);
              Outcome(rest.verdict, spent + rest.includes)
  {
    hide ParseTerm, Ignored, TermEvent, EvalInclude;
  }

  function EvalInclude(dns: Dns, domain: string, peer: string, depth: nat): Outcome
    requires depth <= MAX_INCLUDE_DEPTH
    decreases MAX_INCLUDE_DEPTH - depth, 1, 0
  {
    if domain == "" then Outcome(PermError, 0)
    else
      match dns.txt(domain)
      case NotFound => Outcome(Neutral, 0)
      case Failed => Outcome(TempError, 0)
      case Records(records) =>
        var record := SpfRecord(records);
        if record == [] then Outcome(Neutral, 0) else EvalTerms(dns, record[1..], domain, peer, 0, depth)
  }

  /** The verdict on an envelope domain. */
  function VerifySpf(dns: Dns, domain: string, peer: string): Outcome {
    if domain == "" then Outcome(NoRecord, 0)
    else
      match dns.txt(domain)
      case NotFound => Outcome(NoRecord, 0)
      case Failed => Outcome(TempError, 0)
      case Records(records) =>
        var record := SpfRecord(records);
        if record == [] then Outcome(NoRecord, 0) else EvalTerms(dns, record[1..], domain, peer, 0, 0)
  }

  // ---- the loops ----

  /** evalSPF: the loop over the terms of one record. */
  method EvalSpf(dns: Dns, record: Record, domain: string, peer: string, depth: nat) returns (verdict: Verdict,
      includes: nat)
    requires depth <= MAX_INCLUDE_DEPTH
    ensures record == [] ==> verdict == Neutral && includes == 0
    ensures record != [] ==> Outcome(verdict, includes) == EvalTerms(dns, record[1..], domain, peer, 0, depth)
    decreases MAX_INCLUDE_DEPTH - depth, 0
  {
    hide TermEvent, CallsInclude, ParseTerm, Ignored;
    includes := 0;
    if record == [] {
      return Neutral, 0;
    }
    ghost var goal := EvalTerms(dns, record[1..], domain, peer, 0, depth);
    var mechCount: nat := 0;
    for i := 1 to |record|
      invariant mechCount <= MAX_DNS_MECHANISMS
      invariant goal.verdict == EvalTerms(dns, record[i..], domain, peer, mechCount, depth).verdict
      invariant goal.includes == includes + EvalTerms(dns, record[i..], domain, peer, mechCount, depth).includes
    {
      assert record[i..][1..] == record[i + 1..];
      var inner, spent := Neutral, 0;
      if CallsInclude(record[i], mechCount, depth) {
        CallsWithin(record[i], mechCount, depth);
        inner, spent := EvalIncluded(dns, ParseTerm(record[i]).arg, peer, depth + 1);
        includes := includes + 1 + spent;
      }
      var decided, count, result := EvalTerm(dns, record[i], domain, peer, mechCount, depth, inner);
      if decided {
        return result, includes;
      }
      mechCount := count;
    }
    verdict := Neutral;
  }

  /** The body of that loop, given the verdict of the include if there is one. */
  method EvalTerm(dns: Dns, field: string, domain: string, peer: string, mechCount: nat, depth: nat, included: Verdict)
    returns (decided: bool, count: nat, verdict: Verdict)
    requires mechCount <= MAX_DNS_MECHANISMS
    ensures TermEvent(dns, field, domain, peer, mechCount, depth, included) == if decided then Decide(verdict)
            else Continue(count)
  {
    hide ParseTerm, IpMatch, MatchHost, MatchMx;
    var term := ParseTerm(field);
    count, verdict := mechCount, Neutral;
    if term.modifier {
      return false, count, verdict;
    }
    var found := Match(false);
    match term.name {
      case "all" => found := Match(true);
      case "ip4" => found := Match(IpMatch(dns.parse, term.arg, peer, 32));
      case "ip6" => found := Match(IpMatch(dns.parse, term.arg, peer, 128));
      case "a" =>
        count := count + 1;
        if count > MAX_DNS_MECHANISMS {
          return true, count, PermError;
        }
        found := MatchHost(dns, term.arg, domain, peer);
      case "mx" =>
        count := count + 1;
        if count > MAX_DNS_MECHANISMS {
          return true, count, PermError;
        }
        found := MatchMx(dns, term.arg, domain, peer);
      case "include" =>
        count := count + 1;
        if count > MAX_DNS_MECHANISMS || depth + 1 > MAX_INCLUDE_DEPTH {
          return true, count, PermError;
        }
        if included == PermError || included == TempError {
          return true, count, included;
        }
        found := Match(included == Pass);
      case _ =>
    }
    if found.LookupFailed? {
      return true, count, TempError;
    }
    if found.matched {
      return true, count, Qualified(term.qualifier);
    }
    decided := false;
  }

  method EvalIncluded(dns: Dns, domain: string, peer: string, depth: nat) returns (verdict: Verdict, includes: nat)
    requires depth <= MAX_INCLUDE_DEPTH
    ensures Outcome(verdict, includes) == EvalInclude(dns, domain, peer, depth)
    decreases MAX_INCLUDE_DEPTH - depth, 1
  {
    if domain == "" {
      return PermError, 0;
    }
    match dns.txt(domain) {
      case NotFound => return Neutral, 0;
      case Failed => return TempError, 0;
      case Records(records) =>
        var record := SpfRecord(records);
        if record == [] {
          return Neutral, 0;
        }
        verdict, includes := EvalSpf(dns, record, domain, peer, depth);
    }
  }

  // ---- the work bound ----

  /** Ten include evaluations per record, each one level deeper. */
  function MaxIncludes(depth: nat): nat
    requires depth <= MAX_INCLUDE_DEPTH
    decreases MAX_INCLUDE_DEPTH - depth
  {
    MAX_DNS_MECHANISMS * PerInclude(depth)
  }

  function PerInclude(depth: nat): nat
    requires depth <= MAX_INCLUDE_DEPTH
    decreases MAX_INCLUDE_DEPTH - depth, 0
  {
    if depth == MAX_INCLUDE_DEPTH then 0 else 1 + MaxIncludes(depth + 1)
  }

  function SumOfPowers(n: nat): nat {
    if n == 0 then 0 else Power10(n) + SumOfPowers(n - 1)
  }

  function Power10(n: nat): nat {
    if n == 0 then 1 else 10 * Power10(n - 1)
  }

  lemma {:induction false} TenTimesSum(n: nat)
    ensures 10 * (1 + SumOfPowers(n)) == SumOfPowers(n + 1)
  {
    assert Power10(n + 1) == 10 * Power10(n);
    if n == 0 {
      assert SumOfPowers(1) == Power10(1) + SumOfPowers(0);
    } else {
      TenTimesSum(n - 1);
    }
  }

  lemma {:induction false} MaxIncludesIsSum(depth: nat)
    requires depth <= MAX_INCLUDE_DEPTH
    ensures MaxIncludes(depth) == SumOfPowers(MAX_INCLUDE_DEPTH - depth)
    decreases MAX_INCLUDE_DEPTH - depth
  {
    if depth < MAX_INCLUDE_DEPTH {
      MaxIncludesIsSum(depth + 1);
      TenTimesSum(MAX_INCLUDE_DEPTH - depth - 1);
    }
  }

  lemma {:induction false} TermsBound(dns: Dns, terms: seq<string>, domain: string, peer: string,
      mechCount: nat, depth: nat)
    requires mechCount <= MAX_DNS_MECHANISMS && depth <= MAX_INCLUDE_DEPTH
    ensures EvalTerms(dns, terms, domain, peer, mechCount,
            depth).includes <= (MAX_DNS_MECHANISMS - mechCount) * PerInclude(depth)
    decreases MAX_INCLUDE_DEPTH - depth, 0, |terms|
  {
    hide TermEvent, Ignored, ParseTerm, CallsInclude, PerInclude, EvalInclude, EvalTerms;
    if terms == [] {
      EvalNothing(dns, domain, peer, mechCount, depth);
      BudgetSplits(mechCount, mechCount, PerInclude(depth), 0);
    } else {
      var inner := Outcome(Neutral, 0);
      var spent := 0;
      if CallsInclude(terms[0], mechCount, depth) {
        CallsWithin(terms[0], mechCount, depth);
        inner := EvalInclude(dns, ParseTerm(terms[0]).arg, peer, depth + 1);
        spent := 1 + inner.includes;
        IncludeBound(dns, ParseTerm(terms[0]).arg, peer, depth + 1);
        PerIncludeStep(depth);
      }
      EvalUnfolds(dns, terms, domain, peer, mechCount, depth, inner);
      var event := TermEvent(dns, terms[0], domain, peer, mechCount, depth, inner.verdict);
      if event.Continue? {
        TermsBound(dns, terms[1..], domain, peer, event.mechCount, depth);
        BudgetSplits(mechCount, event.mechCount, PerInclude(depth), spent);
      } else {
        BudgetSplits(mechCount, if spent > 0 then mechCount + 1 else mechCount, PerInclude(depth), spent);
      }
    }
  }

  lemma PerIncludeStep(depth: nat)
    requires depth < MAX_INCLUDE_DEPTH
    ensures PerInclude(depth) == 1 + MaxIncludes(depth + 1)
  {
  }

  lemma BudgetSplits(before: nat, after: nat, per: nat, spent: nat)
    requires before <= after <= MAX_DNS_MECHANISMS && spent <= per
    requires spent > 0 ==> after == before + 1
    ensures spent + (MAX_DNS_MECHANISMS - after) * per <= (MAX_DNS_MECHANISMS - before) * per
    ensures 0 <= (MAX_DNS_MECHANISMS - after) * per
  {
    assert (MAX_DNS_MECHANISMS - before) * per == (MAX_DNS_MECHANISMS - after) * per + (after - before) * per;
  }

  lemma CallsWithin(field: string, mechCount: nat, depth: nat)
    requires CallsInclude(field, mechCount, depth)
    ensures mechCount < MAX_DNS_MECHANISMS && depth < MAX_INCLUDE_DEPTH
  {
  }

  lemma {:induction false} IncludeBound(dns: Dns, domain: string, peer: string, depth: nat)
    requires depth <= MAX_INCLUDE_DEPTH
    ensures EvalInclude(dns, domain, peer, depth).includes <= MaxIncludes(depth)
    decreases MAX_INCLUDE_DEPTH - depth, 1, 0
  {
    if domain != "" && dns.txt(domain).Records? && SpfRecord(dns.txt(domain).records) != [] {
      TermsBound(dns, SpfRecord(dns.txt(domain).records)[1..], domain, peer, 0, depth);
    }
  }

  lemma TenPerRecord(depth: nat)
    requires depth <= MAX_INCLUDE_DEPTH
    ensures MaxIncludes(depth) == MAX_DNS_MECHANISMS * PerInclude(depth)
  {
  }

  /** On every DNS, however cyclic, at most 10 + 10^2 + ... + 10^10 includes. */
  lemma WorkIsBounded(dns: Dns, domain: string, peer: string)
    ensures VerifySpf(dns, domain, peer).includes <= SumOfPowers(10)
  {
    hide EvalTerms, MaxIncludes, PerInclude, SumOfPowers, SpfRecord;
    MaxIncludesIsSum(0);
    TenPerRecord(0);
    if domain != "" && dns.txt(domain).Records? && SpfRecord(dns.txt(domain).records) != [] {
      TermsBound(dns, SpfRecord(dns.txt(domain).records)[1..], domain, peer, 0, 0);
    }
  }

  // ---- rewriting records ----

  /** Drop the ignored terms and everything after the first `all`. */
  function Simplified(terms: seq<string>): seq<string> {
    if terms == [] then []
    else if Ignored(terms[0]) then Simplified(terms[1..])
    else if IsAll(terms[0]) then [terms[0]]
    else [terms[0]] + Simplified(terms[1..])
  }

  function SimplifiedRecord(record: Record): Record {
    if record == [] then [] else [record[0]] + Simplified(record[1..])
  }

  function SimplifiedRecords(records: seq<Record>): seq<Record> {
    seq(|records|, i requires 0 <= i < |records| => SimplifiedRecord(records[i]))
  }

  function SimplifiedAnswer(answer: TxtAnswer): TxtAnswer {
    match answer
    case Records(records) => Records(SimplifiedRecords(records))
    case _ => answer
  }

  function SimplifiedDns(dns: Dns): Dns {
    dns.(txt := domain => SimplifiedAnswer(dns.txt(domain)))
  }

  lemma {:induction false} SimplifiedSelection(records: seq<Record>)
    ensures SpfRecord(SimplifiedRecords(records)) == SimplifiedRecord(SpfRecord(records))
  {
    if records != [] {
      SimplifiedSelection(records[1..]);
      assert SimplifiedRecords(records)[1..] == SimplifiedRecords(records[1..]);
    }
  }

  lemma {:induction false} SimplifiedTerms(dns: Dns, terms: seq<string>, domain: string, peer: string,
      mechCount: nat, depth: nat)
    requires mechCount <= MAX_DNS_MECHANISMS && depth <= MAX_INCLUDE_DEPTH
    ensures EvalTerms(SimplifiedDns(dns), Simplified(terms), domain, peer, mechCount, depth) ==
            EvalTerms(dns, terms, domain, peer, mechCount, depth)
    decreases MAX_INCLUDE_DEPTH - depth, 0, |terms|
  {
    hide TermEvent, IsAll, Ignored, ParseTerm, CallsInclude, EvalInclude, EvalTerms, SimplifiedDns;
    if terms == [] {
      EvalNothing(dns, domain, peer, mechCount, depth);
      EvalNothing(SimplifiedDns(dns), domain, peer, mechCount, depth);
    } else {
      var inner := Outcome(Neutral, 0);
      IgnoredCallsNothing(terms[0], mechCount, depth);
      if CallsInclude(terms[0], mechCount, depth) {
        CallsWithin(terms[0], mechCount, depth);
        inner := EvalInclude(dns, ParseTerm(terms[0]).arg, peer, depth + 1);
        SimplifiedInclude(dns, ParseTerm(terms[0]).arg, peer, depth + 1);
      }
      EventIgnoresTxt(dns, terms[0], domain, peer, mechCount, depth, inner.verdict);
      var event := TermEvent(dns, terms[0], domain, peer, mechCount, depth, inner.verdict);
      if event.Continue? {
        SimplifiedTerms(dns, terms[1..], domain, peer, event.mechCount, depth);
      }
      EvalUnfolds(dns, terms, domain, peer, mechCount, depth, inner);
      if !Ignored(terms[0]) {
        assert Simplified(terms)[0] == terms[0];
        assert !IsAll(terms[0]) ==> Simplified(terms)[1..] == Simplified(terms[1..]);
        EvalUnfolds(SimplifiedDns(dns), Simplified(terms), domain, peer, mechCount, depth, inner);
      }
    }
  }

  lemma IgnoredCallsNothing(field: string, mechCount: nat, depth: nat)
    ensures Ignored(field) ==> !CallsInclude(field, mechCount, depth)
  {
  }

  /** Only includes read TXT records. */
  lemma EventIgnoresTxt(dns: Dns, field: string, domain: string, peer: string, mechCount: nat, depth: nat,
      included: Verdict)
    requires mechCount <= MAX_DNS_MECHANISMS
    ensures TermEvent(SimplifiedDns(dns), field, domain, peer, mechCount, depth, included) ==
            TermEvent(dns, field, domain, peer, mechCount, depth, included)
  {
    hide Ignored, ParseTerm, IpMatch, AnyMatch, AnyHostMatches;
  }

  lemma {:induction false} SimplifiedInclude(dns: Dns, domain: string, peer: string, depth: nat)
    requires depth <= MAX_INCLUDE_DEPTH
    ensures EvalInclude(SimplifiedDns(dns), domain, peer, depth) == EvalInclude(dns, domain, peer, depth)
    decreases MAX_INCLUDE_DEPTH - depth, 1, 0
  {
    if domain != "" && dns.txt(domain).Records? {
      var record := SpfRecord(dns.txt(domain).records);
      SimplifiedSelection(dns.txt(domain).records);
      if record != [] {
        assert SimplifiedRecord(record)[1..] == Simplified(record[1..]);
        SimplifiedTerms(dns, record[1..], domain, peer, 0, depth);
      }
    }
  }

  /** Simplifying every record of the DNS changes no verdict, for any peer. */
  lemma SimplificationPreservesMeaning(dns: Dns, domain: string, peer: string)
    ensures VerifySpf(SimplifiedDns(dns), domain, peer) == VerifySpf(dns, domain, peer)
  {
    if domain != "" && dns.txt(domain).Records? {
      var record := SpfRecord(dns.txt(domain).records);
      SimplifiedSelection(dns.txt(domain).records);
      if record != [] {
        assert SimplifiedRecord(record)[1..] == Simplified(record[1..]);
        SimplifiedTerms(dns, record[1..], domain, peer, 0, 0);
      }
    }
  }

  // ---- records that consult no DNS ----

  predicate Local(field: string) {
    Ignored(field) || ParseTerm(field).name in ["all", "ip4", "ip6"]
  }

  predicate LocalMatch(dns: Dns, field: string, peer: string) {
    var term := ParseTerm(field);
    && !Ignored(field)
    && (term.name == "all" || (term.name == "ip4" && IpMatch(dns.parse, term.arg, peer, 32))
       || (term.name == "ip6" && IpMatch(dns.parse, term.arg, peer, 128)))
  }

  /** The first local term that matches the peer gives its qualifier's verdict. */
  lemma {:induction false} FirstMatchDecides(dns: Dns, terms: seq<string>, i: nat, domain: string, peer: string,
      mechCount: nat, depth: nat)
    requires mechCount <= MAX_DNS_MECHANISMS && depth <= MAX_INCLUDE_DEPTH && i <= |terms|
    requires forall j :: 0 <= j < i ==> Local(terms[j]) && !LocalMatch(dns, terms[j], peer)
    requires i < |terms| ==> Local(terms[i]) && LocalMatch(dns, terms[i], peer)
    ensures EvalTerms(dns, terms, domain, peer, mechCount, depth) ==
            Outcome(if i == |terms| then Neutral else Qualified(ParseTerm(terms[i]).qualifier), 0)
    decreases i
  {
    hide ParseTerm, IpMatch, EvalTerms, EvalInclude;
    if terms == [] {
      EvalNothing(dns, domain, peer, mechCount, depth);
    } else {
      EvalUnfolds(dns, terms, domain, peer, mechCount, depth, Outcome(Neutral, 0));
      if i > 0 {
        assert Local(terms[0]) && !LocalMatch(dns, terms[0], peer);
        FirstMatchDecides(dns, terms[1..], i - 1, domain, peer, mechCount, depth);
      }
    }
  }
}
