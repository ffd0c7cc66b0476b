/** Single terms of a record: which address terms are honoured, and the limit on
    the mechanisms that cost a DNS lookup. */
module SpfTerms {
  import opened Wrappers
  import opened Cidr
  import opened Spf

  // ---- address terms ----

  lemma {:induction false} SplitColonAfter(p: string, rest: string)
    requires ':' !in p
    ensures SplitColon(p + rest) == (p + SplitColon(rest).0, SplitColon(rest).1)
  {
    if p == "" {
      assert p + rest == rest && p + SplitColon(rest).0 == SplitColon(rest).0;
    } else {
      assert (p + rest)[1..] == p[1..] + rest;
      SplitColonAfter(p[1..], rest);
      assert p[0] in p && [p[0]] + (p[1..] + SplitColon(rest).0) == p + SplitColon(rest).0;
    }
  }

  /** The forms a[:domain][/cidr] and mx[:domain][/cidr] that the service
      documents, with or without a qualifier: `rest` is what follows the name. */
  predicate AddressTerm(qualifier: string, name: string, rest: string) {
    && (qualifier == "" || (|qualifier| == 1 && qualifier[0] in "+-~?"))
    && name in ["a", "mx"]
    && (rest == "" || rest[0] == ':' || rest[0] == '/')
  }

  lemma AddressName(name: string, rest: string)
    requires name in ["a", "mx"] && (rest == "" || rest[0] == ':' || rest[0] == '/')
    ensures var (n, arg) := SplitColon(name + rest);
            if rest == "" then n == name && arg == ""
            else if rest[0] == ':' then n == name && arg == rest[1..]
            else '/' in n
  {
    SplitColonAfter(name, rest);
    if rest != "" && rest[0] == '/' {
      assert rest == "/" + rest[1..];
      SplitColonAfter("/", rest[1..]);
      assert (name + SplitColon(rest).0)[|name|] == '/';
    }
  }

  lemma SupportedHasNoSlash(name: string)
    requires '/' in name
    ensures name !in ["all", "ip4", "ip6", "a", "mx", "include"]
  {
  }

  lemma NotQualifier(c: char)
    requires c == 'a' || c == 'm'
    ensures c !in "+-~?"
  {
  }

  lemma NotModifier(body: string)
    requires body != "" && (body[0] == 'a' || body[0] == 'm')
    ensures !("redirect=" <= body) && !("exp=" <= body)
  {
  }

  lemma ParseQualified(field: string, body: string)
    requires field != "" && field[0] in "+-~?" && body == field[1..]
    ensures var (name, arg) := SplitColon(body);
            ParseTerm(field) == Term(field[0], name, arg, "redirect=" <= body || "exp=" <= body)
  {
    hide SplitColon;
  }

  lemma ParseBare(field: string)
    requires field != "" && field[0] !in "+-~?"
    ensures var (name, arg) := SplitColon(field);
            ParseTerm(field) == Term('+', name, arg, "redirect=" <= field || "exp=" <= field)
  {
    hide SplitColon;
  }

  lemma AddressParse(qualifier: string, name: string, rest: string)
    requires AddressTerm(qualifier, name, rest)
    ensures var (n, arg) := SplitColon(name + rest);
            ParseTerm(qualifier + name + rest) == Term(if qualifier == "" then '+' else qualifier[0], n, arg, false)
  {
    hide SplitColon, ParseTerm;
    var field, body := qualifier + name + rest, name + rest;
    NotQualifier(name[0]);
    NotModifier(body);
    if qualifier == "" {
      assert field == body;
      ParseBare(field);
    } else {
      assert field[0] == qualifier[0] && field[1..] == body;
      ParseQualified(field, body);
    }
  }

  /** A documented address term is honoured exactly when nothing or a colon
      follows its name: `a`, `a:example.org/24`, but not `a/24` or `a/24:x`. An
      honoured one is looked up with everything after the colon. */
  lemma PrefixNeedsColon(qualifier: string, name: string, rest: string)
    requires AddressTerm(qualifier, name, rest)
    ensures Ignored(qualifier + name + rest) <==> rest != "" && rest[0] == '/'
    ensures !Ignored(qualifier + name + rest) ==>
              ParseTerm(qualifier + name + rest) ==
              Term(if qualifier == "" then '+' else qualifier[0], name, if rest == "" then "" else rest[1..], false)
  {
    hide SplitColon, ParseTerm;
    AddressParse(qualifier, name, rest);
    AddressName(name, rest);
    if rest != "" && rest[0] == '/' {
      SupportedHasNoSlash(SplitColon(name + rest).0);
    }
  }

  lemma IgnoredIsSkipped(dns: Dns, field: string, rest: seq<string>, domain: string, peer: string,
      mechCount: nat, depth: nat)
    requires mechCount <= MAX_DNS_MECHANISMS && depth <= MAX_INCLUDE_DEPTH && Ignored(field)
    ensures EvalTerms(dns, [field] + rest, domain, peer, mechCount, depth) ==
            EvalTerms(dns, rest, domain, peer, mechCount, depth)
  {
    hide ParseTerm, Ignored, TermEvent, EvalInclude, CallsInclude, EvalTerms;
    var terms := [field] + rest;
    assert terms[0] == field && terms[1..] == rest;
    IgnoredCallsNothing(field, mechCount, depth);
    EvalUnfolds(dns, terms, domain, peer, mechCount, depth, Outcome(Neutral, 0));
  }

  // ---- a record at which it matters ----

  const HOST: IP := [192, 0, 2, 1]
  const NEIGHBOUR: IP := [192, 0, 2, 9]

  /** example.org publishes the record and has the address 192.0.2.1; the peer is
      192.0.2.9. */
  function Example(record: Record): Dns {
    Dns(
      domain => if domain == "example.org" then Records([record]) else NotFound,
      host => if host == "example.org" then Some([HOST]) else None,
      host => None,
      text => if text == "192.0.2.9" then Some(NEIGHBOUR) else None)
  }

  lemma NeighbourIsInPrefix()
    ensures IpMatchNetwork(HOST, NEIGHBOUR, "24")
  {
    MatchIsPrefixEquality(HOST, NEIGHBOUR, "24", 32);
    assert Atoi("24") == Some(24) by {
      assert DigitsValue("2") == 2;
    }
  }

  lemma AllDecides(dns: Dns, field: string, domain: string, peer: string, mechCount: nat, depth: nat)
    requires mechCount <= MAX_DNS_MECHANISMS && depth <= MAX_INCLUDE_DEPTH && IsAll(field)
    ensures EvalTerms(dns, [field], domain, peer, mechCount, depth).verdict == Qualified(ParseTerm(field).qualifier)
  {
    EvalUnfolds(dns, [field], domain, peer, mechCount, depth, Outcome(Neutral, 0));
  }

  lemma MinusAll()
    ensures IsAll("-all") && ParseTerm("-all").qualifier == '-'
  {
    hide SplitColon, ParseTerm;
    assert "-all"[0] == '-' && "-all"[1..] == "all" && "all" + "" == "all";
    ParseQualified("-all", "all");
    NotModifier("all");
    SplitColonAfter("all", "");
    NoMoreColons();
  }

  lemma NoMoreColons()
    ensures SplitColon("") == ("", "")
  {
  }

  lemma IsSpfVersion(record: Record)
    requires record != [] && record[0] == "v=spf1"
    ensures SpfRecord([record]) == record
  {
  }

  lemma ShortFormSkipped()
    ensures VerifySpf(Example(["v=spf1", "a/24", "-all"]), "example.org", "192.0.2.9").verdict == Fail
  {
    hide ParseTerm, Ignored, EvalTerms, SpfRecord, SplitColon;
    var record := ["v=spf1", "a/24", "-all"];
    IsSpfVersion(record);
    PrefixNeedsColon("", "a", "/24");
    assert "" + "a" + "/24" == "a/24" && record[1..] == ["a/24"] + ["-all"];
    IgnoredIsSkipped(Example(record), "a/24", ["-all"], "example.org", "192.0.2.9", 0, 0);
    MinusAll();
    AllDecides(Example(record), "-all", "example.org", "192.0.2.9", 0, 0);
  }

  lemma NeighbourIsLookedUp(record: Record)
    ensures MatchHost(Example(record), "/24", "example.org", "192.0.2.9") == Match(true)
  {
    hide IpMatchNetwork;
    NeighbourIsInPrefix();
    assert SplitCidr("/24") == ("", "24");
    assert IpMatchNetwork([HOST][0], NEIGHBOUR, "24");
  }

  lemma AddressMatches(dns: Dns, field: string, rest: seq<string>, domain: string, peer: string)
    requires !Ignored(field) && ParseTerm(field).name == "a"
             && MatchHost(dns, ParseTerm(field).arg, domain, peer) == Match(true)
    ensures EvalTerms(dns, [field] + rest, domain, peer, 0, 0).verdict == Qualified(ParseTerm(field).qualifier)
  {
    hide ParseTerm, MatchHost;
    var terms := [field] + rest;
    assert terms[0] == field;
    EvalUnfolds(dns, terms, domain, peer, 0, 0, Outcome(Neutral, 0));
  }

  lemma LongFormMatches()
    ensures VerifySpf(Example(["v=spf1", "a:/24", "-all"]), "example.org", "192.0.2.9").verdict == Pass
  {
    hide ParseTerm, Ignored, EvalTerms, SpfRecord, SplitColon, MatchHost;
    var record := ["v=spf1", "a:/24", "-all"];
    IsSpfVersion(record);
    PrefixNeedsColon("", "a", ":/24");
    assert "" + "a" + ":/24" == "a:/24" && ":/24"[1..] == "/24";
    NeighbourIsLookedUp(record);
    assert record[1..] == ["a:/24"] + ["-all"];
    AddressMatches(Example(record), "a:/24", ["-all"], "example.org", "192.0.2.9");
  }

  /** A peer in the /24 of the domain's own address is rejected by `a/24 -all`
      and accepted by `a:/24 -all`. */
  lemma ShortFormRejects()
    ensures IpMatchNetwork(HOST, NEIGHBOUR, "24")
    ensures VerifySpf(Example(["v=spf1", "a/24", "-all"]), "example.org", "192.0.2.9").verdict == Fail
    ensures VerifySpf(Example(["v=spf1", "a:/24", "-all"]), "example.org", "192.0.2.9").verdict == Pass
  {
    NeighbourIsInPrefix();
    ShortFormSkipped();
    LongFormMatches();
  }

  // ---- the limit on DNS mechanisms ----

  /** Mechanisms that cost a DNS lookup. */
  predicate Counted(field: string) {
    !Ignored(field) && ParseTerm(field).name in ["a", "mx", "include"]
  }

  function CountedIn(terms: seq<string>): nat {
    if terms == [] then 0 else (if Counted(terms[0]) then 1 else 0) + CountedIn(terms[1..])
  }

  /** What a term does, with the include it may run. */
  function EventAt(dns: Dns, field: string, domain: string, peer: string, mechCount: nat, depth: nat): (e: Event)
    requires mechCount <= MAX_DNS_MECHANISMS && depth <= MAX_INCLUDE_DEPTH
    ensures e.Continue? ==> e.mechCount <= MAX_DNS_MECHANISMS
  {
    var included := if CallsInclude(field, mechCount, depth)
        then EvalInclude(dns, ParseTerm(field).arg, peer, depth + 1).verdict else Neutral;
    TermEvent(dns, field, domain, peer, mechCount, depth, included)
  }

  /** Where evaluation stands after the terms. */
  function Reached(dns: Dns, terms: seq<string>, domain: string, peer: string, mechCount: nat, depth: nat): (e: Event)
    requires mechCount <= MAX_DNS_MECHANISMS && depth <= MAX_INCLUDE_DEPTH
    ensures e.Continue? ==> e.mechCount <= MAX_DNS_MECHANISMS
    decreases |terms|
  {
    if terms == [] then Continue(mechCount)
    else
      match EventAt(dns, terms[0], domain, peer, mechCount, depth)
      case Decide(verdict) => Decide(verdict)
      case Continue(count) => Reached(dns, terms[1..], domain, peer, count, depth)
  }

  lemma EvalFirst(dns: Dns, terms: seq<string>, domain: string, peer: string, mechCount: nat, depth: nat)
    requires mechCount <= MAX_DNS_MECHANISMS && depth <= MAX_INCLUDE_DEPTH && terms != []
    ensures EvalTerms(dns, terms, domain, peer, mechCount, depth).verdict ==
            match EventAt(dns, terms[0], domain, peer, mechCount, depth)
            case Decide(verdict) => verdict
            case Continue(count) => EvalTerms(dns, terms[1..], domain, peer, count, depth).verdict
  {
    hide ParseTerm, Ignored, TermEvent, EvalInclude;
  }

  lemma {:induction false} EvalReached(dns: Dns, terms: seq<string>, rest: seq<string>, domain: string, peer: string,
      mechCount: nat, depth: nat)
    requires mechCount <= MAX_DNS_MECHANISMS && depth <= MAX_INCLUDE_DEPTH
    ensures EvalTerms(dns, terms + rest, domain, peer, mechCount, depth).verdict ==
            match Reached(dns, terms, domain, peer, mechCount, depth)
            case Decide(verdict) => verdict
            case Continue(count) => EvalTerms(dns, rest, domain, peer, count, depth).verdict
    decreases |terms|
  {
    hide EvalTerms, EventAt;
    if terms == [] {
      assert terms + rest == rest;
    } else {
      assert (terms + rest)[0] == terms[0] && (terms + rest)[1..] == terms[1..] + rest;
      EvalFirst(dns, terms + rest, domain, peer, mechCount, depth);
      var event := EventAt(dns, terms[0], domain, peer, mechCount, depth);
      if event.Continue? {
        EvalReached(dns, terms[1..], rest, domain, peer, event.mechCount, depth);
      }
    }
  }

  lemma EventCounts(dns: Dns, field: string, domain: string, peer: string, mechCount: nat, depth: nat)
    requires mechCount <= MAX_DNS_MECHANISMS && depth <= MAX_INCLUDE_DEPTH
    ensures var e := EventAt(dns, field, domain, peer, mechCount, depth);
            && (e.Continue? ==> e.mechCount == mechCount + if Counted(field) then 1 else 0)
            && (Counted(field) && mechCount == MAX_DNS_MECHANISMS ==> e == Decide(PermError))
  {
    hide ParseTerm, MatchHost, MatchMx, IpMatch, EvalInclude;
  }

  lemma {:induction false} ReachedCounts(dns: Dns, terms: seq<string>, domain: string, peer: string,
      mechCount: nat, depth: nat)
    requires mechCount <= MAX_DNS_MECHANISMS && depth <= MAX_INCLUDE_DEPTH
    ensures var e := Reached(dns, terms, domain, peer, mechCount, depth);
            e.Continue? ==> e.mechCount == mechCount + CountedIn(terms)
    decreases |terms|
  {
    hide EventAt, Counted;
    if terms != [] {
      EventCounts(dns, terms[0], domain, peer, mechCount, depth);
      var event := EventAt(dns, terms[0], domain, peer, mechCount, depth);
      if event.Continue? {
        ReachedCounts(dns, terms[1..], domain, peer, event.mechCount, depth);
      }
    }
  }

  /** Evaluation that gets to a DNS mechanism fails there with permerror if ten
      came before it. If fewer did, `a` and `mx` are looked up and `include` is
      evaluated one level down, unless that level is too deep. */
  lemma TenMechanisms(dns: Dns, before: seq<string>, field: string, rest: seq<string>, domain: string,
      peer: string, depth: nat)
    requires depth <= MAX_INCLUDE_DEPTH && Counted(field) && Reached(dns, before, domain, peer, 0, depth).Continue?
    ensures CountedIn(before) <= 10
    ensures var term, n := ParseTerm(field), CountedIn(before);
            var verdict := EvalTerms(dns, before + ([field] + rest), domain, peer, 0, depth).verdict;
            if n == 10 || (term.name == "include" && depth == MAX_INCLUDE_DEPTH) then verdict == PermError
            else
              var passedOver := EvalTerms(dns, rest, domain, peer, n + 1, depth).verdict;
              if term.name == "include" then
                match EvalInclude(dns, term.arg, peer, depth + 1).verdict
                case PermError => verdict == PermError
                case TempError => verdict == TempError
                case Pass => verdict == Qualified(term.qualifier)
                case _ => verdict == passedOver
              else
                match if term.name == "a" then MatchHost(dns, term.arg, domain, peer)
                    else MatchMx(dns, term.arg, domain, peer)
                case LookupFailed => verdict == TempError
                case Match(true) => verdict == Qualified(term.qualifier)
                case Match(false) => verdict == passedOver
  {
    hide EvalTerms, Reached, ParseTerm, MatchHost, MatchMx, EvalInclude;
    var terms := [field] + rest;
    assert terms[0] == field && terms[1..] == rest;
    EvalReached(dns, before, terms, domain, peer, 0, depth);
    ReachedCounts(dns, before, domain, peer, 0, depth);
    EvalFirst(dns, terms, domain, peer, CountedIn(before), depth);
    EventCounts(dns, field, domain, peer, CountedIn(before), depth);
  }
}
