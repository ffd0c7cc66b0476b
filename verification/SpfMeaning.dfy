/** What the terms of a record decide, in terms of addresses, hosts and
    qualifiers rather than of the evaluator. */
module SpfMeaning {
  import opened Text
  import opened Wrappers
  import opened Cidr
  import opened Spf
  import opened SpfTerms

  // ---- mechanisms with a qualifier ----

  predicate Qualifier(q: string) {
    q in ["", "+", "-", "~", "?"]
  }

  /** The verdict of a matching mechanism, by what stands in front of it. */
  function VerdictOf(q: string): Verdict
    requires Qualifier(q)
  {
    if q == "-" then Fail else if q == "~" then SoftFail else if q == "?" then Neutral else Pass
  }

  predicate Mechanism(name: string) {
    name in ["all", "ip4", "ip6", "a", "mx", "include"]
  }

  lemma NameIsPlain(name: string)
    requires Mechanism(name)
    ensures name != "" && name[0] !in "+-~?" && ':' !in name
    ensures name[0] != 'e' && name[0] != 'r'
  {
  }

  lemma NameIsNoModifier(name: string, rest: string)
    requires Mechanism(name)
    ensures !("redirect=" <= name + rest) && !("exp=" <= name + rest)
  {
    NameIsPlain(name);
    assert (name + rest)[0] == name[0];
  }

  lemma QualifierChar(q: string)
    requires Qualifier(q) && q != ""
    ensures |q| == 1 && q[0] in "+-~?" && Qualified(q[0]) == VerdictOf(q)
  {
  }

  lemma ColonSplits(name: string, arg: string)
    requires ':' !in name
    ensures SplitColon(name + ":" + arg) == (name, arg)
  {
    hide SplitColon;
    assert name + ":" + arg == name + (":" + arg);
    SplitColonAfter(name, ":" + arg);
    ColonFirst(arg);
    assert name + "" == name;
  }

  lemma ColonFirst(arg: string)
    ensures SplitColon(":" + arg) == ("", arg)
  {
    assert (":" + arg)[0] == ':' && (":" + arg)[1..] == arg;
  }

  lemma NoColonSplits(name: string)
    requires ':' !in name
    ensures SplitColon(name) == (name, "")
  {
    assert name + "" == name;
    SplitColonAfter(name, "");
    NoMoreColons();
  }

  /** What a mechanism is written like: qualifier, name and, after a colon, its
      argument. */
  function Field(q: string, name: string, arg: Option<string>): string {
    match arg
    case None => q + name
    case Some(a) => q + name + ":" + a
  }

  function Body(name: string, arg: Option<string>): string {
    match arg
    case None => name
    case Some(a) => name + ":" + a
  }

  lemma BodySplits(name: string, arg: Option<string>)
    requires Mechanism(name)
    ensures SplitColon(Body(name, arg)) == (name, if arg.Some? then arg.value else "")
    ensures Body(name, arg) != "" && Body(name, arg)[0] !in "+-~?"
    ensures !("redirect=" <= Body(name, arg)) && !("exp=" <= Body(name, arg))
  {
    hide SplitColon;
    NameIsPlain(name);
    match arg
    case None =>
      NoColonSplits(name);
      NameIsNoModifier(name, "");
      assert name + "" == name;
    case Some(a) =>
      ColonSplits(name, a);
      NameIsNoModifier(name, ":" + a);
      assert name + (":" + a) == name + ":" + a;
  }

  lemma FieldIsBody(q: string, name: string, arg: Option<string>)
    ensures Field(q, name, arg) == q + Body(name, arg)
  {
    match arg
    case None =>
    case Some(a) => assert q + name + ":" + a == q + (name + ":" + a);
  }

  /** A mechanism is read back as it was written, and its qualifier gives the verdict. */
  lemma FieldParses(q: string, name: string, arg: Option<string>)
    requires Qualifier(q) && Mechanism(name)
    ensures var term := ParseTerm(Field(q, name, arg));
            && term.name == name && term.arg == (if arg.Some? then arg.value else "")
            && Qualified(term.qualifier) == VerdictOf(q)
    ensures !Ignored(Field(q, name, arg))
  {
    hide SplitColon, ParseTerm;
    var field, body := Field(q, name, arg), Body(name, arg);
    FieldIsBody(q, name, arg);
    BodySplits(name, arg);
    if q == "" {
      assert field == body;
      ParseBare(field);
    } else {
      QualifierChar(q);
      assert field[0] == q[0] && field[1..] == body;
      ParseQualified(field, body);
    }
  }

  // ---- what a mechanism matches ----

  /** The peer lies in the network the argument of an ip4 or ip6 names. */
  ghost predicate InArgument(dns: Dns, spec: string, cidr: Option<string>, peer: string, bits: nat) {
    && dns.parse(spec).Some? && dns.parse(peer).Some?
    && SameNetwork(dns.parse(spec).value, dns.parse(peer).value, PrefixOf(cidr), bits)
  }

  ghost predicate NearAddress(addrs: seq<IP>, peer: IP, cidr: string) {
    exists a :: a in addrs && (SameNetwork(a, peer, cidr, 32) || SameNetwork(a, peer, cidr, 128))
  }

  /** Every resolver returns addresses. */
  ghost predicate Resolves(dns: Dns) {
    && ReadsAddresses(dns.parse)
    && forall host :: dns.ip(host).Some? ==> AllAddresses(dns.ip(host).value)
  }

  predicate AllAddresses(addrs: seq<IP>) {
    forall i :: 0 <= i < |addrs| ==> IsAddress(addrs[i])
  }

  lemma AnyMatchIsNear(addrs: seq<IP>, peer: IP, cidr: string)
    requires AllAddresses(addrs) && IsAddress(peer)
    ensures AnyMatch(addrs, peer, cidr) <==> NearAddress(addrs, peer, cidr)
  {
    hide IpMatchNetwork, SameNetwork, IsAddress;
    forall i | 0 <= i < |addrs|
      ensures IpMatchNetwork(addrs[i], peer, cidr) <==>
                SameNetwork(addrs[i], peer, cidr, 32) || SameNetwork(addrs[i], peer, cidr, 128)
    {
      NetworkMatchIsNetwork(addrs[i], peer, cidr);
    }
    if NearAddress(addrs, peer, cidr) {
      var a :| a in addrs && (SameNetwork(a, peer, cidr, 32) || SameNetwork(a, peer, cidr, 128));
      var i :| 0 <= i < |addrs| && addrs[i] == a;
    }
  }

  /** The name that is looked up: the argument's, or else the domain's own. */
  function Looked(host: string, domain: string): string {
    if host == "" then domain else host
  }

  /** An `a` mechanism looks up its host and matches the peers near one of its addresses. */
  lemma HostMeaning(dns: Dns, host: string, cidr: Option<string>, domain: string, peer: string)
    requires '/' !in host && Resolves(dns)
    ensures MatchHost(dns, Argument(host, cidr), domain, peer) ==
            if dns.parse(peer).None? then Match(false)
            else if dns.ip(Looked(host, domain)).None? then LookupFailed
            else Match(NearAddress(dns.ip(Looked(host, domain)).value, dns.parse(peer).value, PrefixOf(cidr)))
  {
    hide AnyMatch, NearAddress, SplitCidr, Argument;
    ArgumentSplits(host, cidr);
    if dns.parse(peer).Some? && dns.ip(Looked(host, domain)).Some? {
      AnyMatchIsNear(dns.ip(Looked(host, domain)).value, dns.parse(peer).value, PrefixOf(cidr));
    }
  }

  /** The exchange answers its own lookup with an address near the peer. */
  ghost predicate NearExchange(dns: Dns, exchange: string, peer: IP, cidr: string) {
    dns.ip(exchange).Some? && NearAddress(dns.ip(exchange).value, peer, cidr)
  }

  /** An `mx` mechanism looks up the mail exchanges, passes over those without an
      address, and matches the peers near an address of another one. */
  lemma MxMeaning(dns: Dns, host: string, cidr: Option<string>, domain: string, peer: string)
    requires '/' !in host && Resolves(dns)
    ensures MatchMx(dns, Argument(host, cidr), domain, peer) ==
            if dns.parse(peer).None? then Match(false)
            else if dns.mx(Looked(host, domain)).None? then LookupFailed
            else Match(exists x :: x in dns.mx(Looked(host, domain)).value &&
                                   NearExchange(dns, x, dns.parse(peer).value, PrefixOf(cidr)))
  {
    hide AnyMatch, NearAddress, SplitCidr, Argument;
    ArgumentSplits(host, cidr);
    if dns.parse(peer).Some? && dns.mx(Looked(host, domain)).Some? {
      var exchanges, addr, length := dns.mx(Looked(host, domain)).value, dns.parse(peer).value, PrefixOf(cidr);
      forall i | 0 <= i < |exchanges|
        ensures HostMatches(dns.ip, exchanges[i], addr, length) <==> NearExchange(dns, exchanges[i], addr, length)
      {
        if dns.ip(exchanges[i]).Some? {
          AnyMatchIsNear(dns.ip(exchanges[i]).value, addr, length);
        }
      }
      assert AnyHostMatches(dns.ip, exchanges, addr, length) <==>
               exists x :: x in exchanges && NearExchange(dns, x, addr, length);
    }
  }

  // ---- what a term decides ----

  /** Evaluation that reaches a matching ip4, ip6 or all ends with the verdict of
      its qualifier; otherwise the term changes nothing. */
  lemma NetworkTermDecides(dns: Dns, before: seq<string>, q: string, six: bool, spec: string, cidr: Option<string>,
      rest: seq<string>, domain: string, peer: string, depth: nat)
    requires depth <= MAX_INCLUDE_DEPTH && Qualifier(q) && '/' !in spec && ReadsAddresses(dns.parse)
    requires Reached(dns, before, domain, peer, 0, depth).Continue?
    ensures CountedIn(before) <= MAX_DNS_MECHANISMS
    ensures var field := Field(q, if six then "ip6" else "ip4", Some(Argument(spec, cidr)));
            EvalTerms(dns, before + ([field] + rest), domain, peer, 0, depth).verdict ==
            if InArgument(dns, spec, cidr, peer, if six then 128 else 32) then VerdictOf(q)
            else EvalTerms(dns, rest, domain, peer, CountedIn(before), depth).verdict
  {
    hide EvalTerms, Reached, ParseTerm, Ignored, EventAt, Argument, SameNetwork, ReadsAddresses, Field;
    hide VerdictOf, Qualified;
    var bits := if six then 128 else 32;
    var field := Field(q, if six then "ip6" else "ip4", Some(Argument(spec, cidr)));
    FieldParses(q, if six then "ip6" else "ip4", Some(Argument(spec, cidr)));
    IpMatchIsNetwork(dns.parse, spec, cidr, peer, bits);
    ReachedCounts(dns, before, domain, peer, 0, depth);
    var terms := [field] + rest;
    assert terms[0] == field && terms[1..] == rest;
    EvalReached(dns, before, terms, domain, peer, 0, depth);
    EvalFirst(dns, terms, domain, peer, CountedIn(before), depth);
    NetworkEvent(dns, field, domain, peer, CountedIn(before), depth);
  }

  lemma NetworkEvent(dns: Dns, field: string, domain: string, peer: string, mechCount: nat, depth: nat)
    requires mechCount <= MAX_DNS_MECHANISMS && depth <= MAX_INCLUDE_DEPTH
    requires !Ignored(field) && ParseTerm(field).name in ["ip4", "ip6"]
    ensures EventAt(dns, field, domain, peer, mechCount, depth) ==
            if IpMatch(dns.parse, ParseTerm(field).arg, peer, if ParseTerm(field).name == "ip4" then 32 else 128)
            then Decide(Qualified(ParseTerm(field).qualifier)) else Continue(mechCount)
  {
    hide ParseTerm, IpMatch, EvalInclude, Qualified;
  }

  lemma AllEvent(dns: Dns, field: string, domain: string, peer: string, mechCount: nat, depth: nat)
    requires mechCount <= MAX_DNS_MECHANISMS && depth <= MAX_INCLUDE_DEPTH && IsAll(field)
    ensures EventAt(dns, field, domain, peer, mechCount, depth) == Decide(Qualified(ParseTerm(field).qualifier))
  {
    hide ParseTerm, EvalInclude, Qualified;
  }

  /** An `all` that is reached decides for every peer. */
  lemma AllTermDecides(dns: Dns, before: seq<string>, q: string, rest: seq<string>, domain: string, peer: string,
      depth: nat)
    requires depth <= MAX_INCLUDE_DEPTH && Qualifier(q)
    requires Reached(dns, before, domain, peer, 0, depth).Continue?
    ensures EvalTerms(dns, before + ([Field(q, "all", None)] + rest), domain, peer, 0, depth).verdict == VerdictOf(q)
  {
    hide EvalTerms, Reached, ParseTerm, Ignored, EventAt, Field, VerdictOf, Qualified;
    var field := Field(q, "all", None);
    FieldParses(q, "all", None);
    ReachedCounts(dns, before, domain, peer, 0, depth);
    var terms := [field] + rest;
    assert terms[0] == field;
    EvalReached(dns, before, terms, domain, peer, 0, depth);
    EvalFirst(dns, terms, domain, peer, CountedIn(before), depth);
    AllEvent(dns, field, domain, peer, CountedIn(before), depth);
  }

  /** Evaluation that reaches an `a` or `mx` with fewer than ten DNS mechanisms
      before it fails when the lookup fails, ends with the verdict of the
      qualifier when the peer is near an address found, and goes on otherwise. */
  lemma HostTermDecides(dns: Dns, before: seq<string>, q: string, mx: bool, host: string, cidr: Option<string>,
      rest: seq<string>, domain: string, peer: string, depth: nat)
    requires depth <= MAX_INCLUDE_DEPTH && Qualifier(q) && '/' !in host && Resolves(dns) && dns.parse(peer).Some?
    requires Reached(dns, before, domain, peer, 0, depth).Continue? && CountedIn(before) < MAX_DNS_MECHANISMS
    ensures var field := Field(q, if mx then "mx" else "a", Some(Argument(host, cidr)));
            var looked, addr, length := Looked(host, domain), dns.parse(peer).value, PrefixOf(cidr);
            var failed := if mx then dns.mx(looked).None? else dns.ip(looked).None?;
            EvalTerms(dns, before + ([field] + rest), domain, peer, 0, depth).verdict ==
            if failed then TempError
            else if (if mx then exists x :: x in dns.mx(looked).value && NearExchange(dns, x, addr, length)
                     else NearAddress(dns.ip(looked).value, addr, length)) then VerdictOf(q)
            else EvalTerms(dns, rest, domain, peer, CountedIn(before) + 1, depth).verdict
  {
    hide EvalTerms, Reached, ParseTerm, Ignored, MatchHost, MatchMx, Argument, NearAddress, NearExchange, Field;
    hide VerdictOf, Qualified, Resolves;
    var field := Field(q, if mx then "mx" else "a", Some(Argument(host, cidr)));
    FieldParses(q, if mx then "mx" else "a", Some(Argument(host, cidr)));
    TenMechanisms(dns, before, field, rest, domain, peer, depth);
    if mx {
      MxMeaning(dns, host, cidr, domain, peer);
    } else {
      HostMeaning(dns, host, cidr, domain, peer);
    }
  }

  // ---- which record is evaluated ----

  /** The record evaluated is the first one that starts with v=spf1 in any case. */
  lemma {:induction false} FirstSpfRecord(records: seq<Record>, i: nat)
    requires i <= |records| && forall j :: 0 <= j < i ==> !IsSpf(records[j])
    requires i < |records| ==> IsSpf(records[i])
    ensures SpfRecord(records) == if i < |records| then records[i] else []
  {
    if i > 0 {
      FirstSpfRecord(records[1..], i - 1);
    }
  }

  /** The verdict on a domain is that of its first SPF record; as an include, a
      missing one only fails to match, and no name at all is an error. */
  lemma RecordOfDomain(dns: Dns, domain: string, peer: string, depth: nat, i: nat)
    requires depth <= MAX_INCLUDE_DEPTH && domain != ""
    requires dns.txt(domain).Records? ==>
               (i <= |dns.txt(domain).records| && forall j :: 0 <= j < i ==> !IsSpf(dns.txt(domain).records[j]))
    requires dns.txt(domain).Records? && i < |dns.txt(domain).records| ==> IsSpf(dns.txt(domain).records[i])
    ensures VerifySpf(dns, "", peer).verdict == NoRecord && EvalInclude(dns, "", peer, depth).verdict == PermError
    ensures match dns.txt(domain)
            case Failed =>
              && VerifySpf(dns, domain, peer).verdict == TempError
              && EvalInclude(dns, domain, peer, depth).verdict == TempError
            case NotFound =>
              && VerifySpf(dns, domain, peer).verdict == NoRecord
              && EvalInclude(dns, domain, peer, depth).verdict == Neutral
            case Records(records) =>
              if i == |records| then
                && VerifySpf(dns, domain, peer).verdict == NoRecord
                && EvalInclude(dns, domain, peer, depth).verdict == Neutral
              else
                && VerifySpf(dns, domain, peer) == EvalTerms(dns, records[i][1..], domain, peer, 0, 0)
                && EvalInclude(dns, domain, peer, depth) == EvalTerms(dns, records[i][1..], domain, peer, 0, depth)
  {
    hide EvalTerms, IsSpf, SpfRecord;
    if dns.txt(domain).Records? {
      FirstSpfRecord(dns.txt(domain).records, i);
      if i < |dns.txt(domain).records| {
        SpfIsNotEmpty(dns.txt(domain).records[i]);
      }
    }
  }

  lemma SpfIsNotEmpty(record: Record)
    requires IsSpf(record)
    ensures record != []
  {
  }

  // ---- a record with a prefix ----

  /** A domain that publishes `ip4:` with a prefix and then `-all` passes exactly
      the peers of that network. */
  lemma PrefixRecordPasses(dns: Dns, spec: string, cidr: Option<string>, domain: string, peer: string)
    requires domain != "" && '/' !in spec && ReadsAddresses(dns.parse)
    requires dns.txt(domain) == Records([["v=spf1", Field("", "ip4", Some(Argument(spec, cidr))), "-all"]])
    ensures VerifySpf(dns, domain, peer).verdict == if InArgument(dns, spec, cidr, peer, 32) then Pass else Fail
  {
    hide EvalTerms, Field, Argument, InArgument, ReadsAddresses, IsSpf, SpfRecord;
    var field := Field("", "ip4", Some(Argument(spec, cidr)));
    var record := ["v=spf1", field, "-all"];
    IsSpfVersion(record);
    assert record[1..] == [] + ([field] + ["-all"]) && ["-all"] == [] + (["-all"] + []);
    NetworkTermDecides(dns, [], "", false, spec, cidr, ["-all"], domain, peer, 0);
    AllTermDecides(dns, [], "-", [], domain, peer, 0);
    assert Field("-", "all", None) == "-all" by { FieldOfAll(); }
  }

  lemma FieldOfAll()
    ensures Field("-", "all", None) == "-all"
  {
  }
}
