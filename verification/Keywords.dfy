/** Tags seen as protocol keywords. A client's keyword names an account tag up to
    case; replace makes the listed names the whole tag set of the messages, among
    the names IMAP can carry. Names are byte strings, one byte a character. */
module Keywords {
  import opened FlagNames
  import opened Text

  type LabelId = nat
  type EmailId = string
  type AccountId = nat

  datatype Label = Label(account: AccountId, name: string, live: bool)

  /** The email_labels rows and the join table. */
  datatype Tags = Tags(labels: map<LabelId, Label>, mappings: set<(EmailId, LabelId)>)

  // ---- names ----

  /** What IMAP's flag-keyword atom can hold, byte by byte. */
  predicate Special(c: char) {
    c < ' ' || c == 127 as char || c in {'(', ')', '{', ' ', '%', '*', '"', '\\', ']'}
  }

  predicate Expressible(name: string) {
    0 < |name| <= 255 && forall i :: 0 <= i < |name| ==> !Special(name[i])
  }

  // The grammar of section 9 of RFC 3501, production by production.

  predicate Ctl(c: char) {
    c as int <= 31 || c as int == 127
  }

  predicate ListWildcard(c: char) {
    c == '%' || c == '*'
  }

  predicate QuotedSpecial(c: char) {
    c == '"' || c == '\\'
  }

  predicate RespSpecial(c: char) {
    c == ']'
  }

  predicate AtomSpecial(c: char) {
    c in "({)" || c == ' ' || Ctl(c) || ListWildcard(c) || QuotedSpecial(c) || RespSpecial(c)
  }

  /** An expressible name is an atom of 1 to 255 bytes, apart from the bytes above
      127 that the grammar leaves out. */
  lemma ExpressibleIsAtom(name: string)
    ensures Expressible(name) <==> 1 <= |name| <= 255 && forall i :: 0 <= i < |name| ==> !AtomSpecial(name[i])
  {
    forall i | 0 <= i < |name| ensures Special(name[i]) <==> AtomSpecial(name[i]) {
      SpecialIsAtomSpecial(name[i]);
    }
  }

  lemma SpecialIsAtomSpecial(c: char)
    ensures Special(c) <==> AtomSpecial(c)
  {
    assert "({)" == ['(', '{', ')'];
  }

  method IsIMAPKeyword(name: string) returns (ok: bool)
    ensures ok <==> Expressible(name)
  {
    if name == "" || |name| > 255 {
      return false;
    }
    for i := 0 to |name|
      invariant forall j :: 0 <= j < i ==> !Special(name[j])
    {
      var c := name[i];
      if c < ' ' || c == 127 as char {
        return false;
      }
      if c < 128 as char {
        if c in {'(', ')', '{', ' ', '%', '*', '"', '\\', ']'} {
          return false;
        }
      }
    }
    return true;
  }

  /** Folding case neither makes nor breaks a keyword. */
  lemma FoldKeepsExpressible(a: string, b: string)
    requires Lower(a) == Lower(b) && Expressible(a)
    ensures Expressible(b)
  {
    forall i | 0 <= i < |b| ensures !Special(b[i]) {
      assert LowerChar(b[i]) == Lower(b)[i] == Lower(a)[i] == LowerChar(a[i]);
    }
  }

  predicate Listed(names: seq<string>, name: string) {
    exists i :: 0 <= i < |names| && Lower(names[i]) == Lower(name)
  }

  /** Trimmed tag names, the first of each case-folded group. */
  function Normalized(keywords: seq<string>): seq<string> {
    if keywords == [] then []
    else
      var before, name := Normalized(keywords[..|keywords| - 1]), Trim(keywords[|keywords| - 1]);
      if name == "" || System(name) || Scoped(name) || Listed(before, name) then before else before + [name]
  }

  method NormalizeKeywords(keywords: seq<string>) returns (names: seq<string>)
    ensures names == Normalized(keywords)
  {
    names := [];
    var seen: set<string> := {};
    for i := 0 to |keywords|
      invariant names == Normalized(keywords[..i])
      invariant forall lower :: lower in seen <==> exists k :: 0 <= k < |names| && Lower(names[k]) == lower
    {
      assert keywords[..i + 1][..i] == keywords[..i];
      var keyword := Trim(keywords[i]);
      if keyword == "" || System(keyword) || Scoped(keyword) {
        continue;
      }
      var lower := Lower(keyword);
      if lower in seen {
        continue;
      }
      seen := seen + {lower};
      ghost var before := names;
      names := names + [keyword];
      assert names[|before|] == keyword && forall k :: 0 <= k < |before| ==> names[k] == before[k];
    }
    assert keywords[..|keywords|] == keywords;
  }

  /** No two names alike up to case, none blank or reserved. */
  ghost predicate Clean(names: seq<string>) {
    && (forall i, j :: 0 <= i < j < |names| ==> Lower(names[i]) != Lower(names[j]))
    && (forall i :: 0 <= i < |names| ==> names[i] != "" && !System(names[i]) && !Scoped(names[i]))
  }

  lemma {:induction false} NormalizedIsClean(keywords: seq<string>)
    ensures Clean(Normalized(keywords))
  {
    if keywords != [] {
      NormalizedIsClean(keywords[..|keywords| - 1]);
    }
  }

  lemma FoldKeepsKind(a: string, b: string)
    requires Lower(a) == Lower(b)
    ensures (a == "" <==> b == "") && (Scoped(a) <==> Scoped(b)) && (System(a) <==> System(b))
  {
    assert |a| == |b|;
    if a != "" {
      assert LowerChar(b[0]) == Lower(b)[0] == Lower(a)[0] == LowerChar(a[0]);
    }
  }

  /** The keywords that fold to a name, in the list as the client sent it. */
  ghost predicate Requested(keywords: seq<string>, name: string) {
    exists i :: 0 <= i < |keywords| && Lower(Trim(keywords[i])) == Lower(name)
  }

  /** Normalising loses no tag name and invents none. */
  lemma {:induction false} NormalizedListsRequested(keywords: seq<string>, name: string)
    requires name != "" && !System(name) && !Scoped(name)
    ensures Listed(Normalized(keywords), name) <==> Requested(keywords, name)
  {
    if keywords != [] {
      var n := |keywords| - 1;
      var init, last := keywords[..n], Trim(keywords[n]);
      NormalizedListsRequested(init, name);
      assert Requested(keywords, name) <==> Requested(init, name) || Lower(last) == Lower(name) by {
        assert forall i :: 0 <= i < n ==> init[i] == keywords[i];
      }
      var before, after := Normalized(init), Normalized(keywords);
      if Lower(last) == Lower(name) {
        FoldKeepsKind(last, name);
        assert after != before ==> after[|before|] == last;
      } else if after != before {
        assert after[..|before|] == before && after[|before|] == last;
        assert forall i :: 0 <= i < |before| ==> after[i] == before[i];
      }
    }
  }

  /** Keyword `i` is the first of its case-folded group, and spells `name`. */
  ghost predicate FirstSpells(keywords: seq<string>, i: nat, name: string) {
    && i < |keywords| && Trim(keywords[i]) == name
    && forall h :: 0 <= h < i ==> Lower(Trim(keywords[h])) != Lower(name)
  }

  ghost predicate FirstSpellings(keywords: seq<string>, firsts: seq<nat>, names: seq<string>) {
    && |firsts| == |names|
    && (forall k :: 0 <= k < |names| ==> FirstSpells(keywords, firsts[k], names[k]))
    && (forall j, k :: 0 <= j < k < |firsts| ==> firsts[j] < firsts[k])
  }

  lemma FirstSpellsOn(init: seq<string>, keywords: seq<string>, i: nat, name: string)
    requires init <= keywords && FirstSpells(init, i, name)
    ensures FirstSpells(keywords, i, name)
  {
    hide Trim, Lower;
    assert forall h :: 0 <= h <= i ==> keywords[h] == init[h];
  }

  lemma FirstSpellingsOn(init: seq<string>, keywords: seq<string>, firsts: seq<nat>, names: seq<string>)
    requires init <= keywords && FirstSpellings(init, firsts, names)
    ensures FirstSpellings(keywords, firsts, names)
  {
    hide FirstSpells;
    forall k | 0 <= k < |names| ensures FirstSpells(keywords, firsts[k], names[k]) {
      FirstSpellsOn(init, keywords, firsts[k], names[k]);
    }
  }

  lemma OneMoreSpelling(init: seq<string>, keyword: string, firsts: seq<nat>, names: seq<string>)
    requires FirstSpellings(init, firsts, names) && FirstSpells(init + [keyword], |init|, Trim(keyword))
    ensures FirstSpellings(init + [keyword], firsts + [|init|], names + [Trim(keyword)])
  {
    FirstSpellingsOn(init, init + [keyword], firsts, names);
    assert forall k :: 0 <= k < |firsts| ==> FirstSpells(init, firsts[k], names[k]);
    hide FirstSpells, Trim;
    var more, now := firsts + [|init|], names + [Trim(keyword)];
    forall k | 0 <= k < |now| ensures FirstSpells(init + [keyword], more[k], now[k]) {
      assert k < |names| ==> more[k] == firsts[k] && now[k] == names[k];
    }
    forall k | 0 <= k < |firsts| ensures firsts[k] < |init| {
      FirstIsPlace(init, firsts[k], names[k]);
    }
  }

  lemma FirstIsPlace(keywords: seq<string>, i: nat, name: string)
    requires FirstSpells(keywords, i, name)
    ensures i < |keywords|
  {
  }

  lemma UnlistedIsNew(init: seq<string>, keyword: string)
    requires var name := Trim(keyword);
             name != "" && !System(name) && !Scoped(name) && !Listed(Normalized(init), name)
    ensures FirstSpells(init + [keyword], |init|, Trim(keyword))
  {
    hide Trim, Lower, Normalized, Listed;
    var name := Trim(keyword);
    NormalizedListsRequested(init, name);
    forall h | 0 <= h < |init| ensures Lower(Trim((init + [keyword])[h])) != Lower(name) {
      assert (init + [keyword])[h] == init[h];
    }
  }

  /** The names keep the order of the keywords, and each the spelling, without its
      outer space, of the first of its case-folded group. */
  lemma {:induction false} NormalizedKeepsFirst(keywords: seq<string>) returns (firsts: seq<nat>)
    ensures FirstSpellings(keywords, firsts, Normalized(keywords))
  {
    hide Trim, Lower, FirstSpellings, FirstSpells, Listed;
    firsts := [];
    if keywords == [] {
      NoSpellings(keywords);
    } else {
      var n := |keywords| - 1;
      var init := keywords[..n];
      firsts := NormalizedKeepsFirst(init);
      assert keywords == init + [keywords[n]];
      if Normalized(keywords) == Normalized(init) {
        FirstSpellingsOn(init, keywords, firsts, Normalized(init));
      } else {
        UnlistedIsNew(init, keywords[n]);
        OneMoreSpelling(init, keywords[n], firsts, Normalized(init));
        firsts := firsts + [n];
      }
    }
  }

  lemma NoSpellings(keywords: seq<string>)
    ensures FirstSpellings(keywords, [], [])
  {
  }

  /** Splitting off the membership's flags first changes no tag name. */
  lemma {:induction false} SplitKeepsNames(flags: seq<string>, name: string)
    requires name != "" && !System(name) && !Scoped(name)
    ensures Listed(TagNames(flags), name) <==> Requested(flags, name)
    ensures forall i :: 0 <= i < |StoredNames(flags)| ==> System(StoredNames(flags)[i]) || Scoped(StoredNames(flags)[i])
  {
    if flags != [] {
      var n := |flags| - 1;
      var init, last := flags[..n], Trim(flags[n]);
      SplitKeepsNames(init, name);
      assert Requested(flags, name) <==> Requested(init, name) || Lower(last) == Lower(name) by {
        assert forall i :: 0 <= i < n ==> init[i] == flags[i];
      }
      var before, after := TagNames(init), TagNames(flags);
      if Lower(last) == Lower(name) {
        FoldKeepsKind(last, name);
        assert after[|before|] == last;
      } else if after != before {
        assert forall i :: 0 <= i < |before| ==> after[i] == before[i];
      }
    }
  }

  // ---- the transactions, as relations on the tables ----

  /** A live tag of the account with that name, up to case. */
  ghost predicate NamesTag(s: Tags, account: AccountId, l: LabelId, name: string) {
    l in s.labels && s.labels[l].live && s.labels[l].account == account && Lower(s.labels[l].name) == Lower(name)
  }

  /** The tag a keyword resolves to: any match, or a new one when there is none. */
  ghost predicate Resolves(s: Tags, labels: map<LabelId, Label>, account: AccountId, name: string, l: LabelId) {
    if exists k :: NamesTag(s, account, k, name) then NamesTag(s, account, l, name) && labels == s.labels
    else l !in s.labels && labels == s.labels[l := Label(account, name, true)]
  }

  ghost predicate Attaches(s: Tags, t: Tags, account: AccountId, members: set<EmailId>, names: seq<string>)
    decreases |names|
  {
    if names == [] then t == s
    else
      var n := |names| - 1;
      exists before: Tags, l ::
        && Attaches(s, before, account, members, names[..n])
        && Resolves(before, t.labels, account, names[n], l)
        && t.mappings == before.mappings + (set m | m in members :: (m, l))
  }

  ghost function Detach(s: Tags, account: AccountId, members: set<EmailId>, names: seq<string>): Tags {
    s.(mappings := set p | p in s.mappings &&
      !(p.0 in members && p.1 in s.labels && s.labels[p.1].live && s.labels[p.1].account == account
          && Listed(names, s.labels[p.1].name)))
  }

  /** The unlisted tags of the account that IMAP could have named. */
  ghost predicate Releasable(s: Tags, account: AccountId, l: LabelId, names: seq<string>) {
    && l in s.labels && s.labels[l].live && s.labels[l].account == account
    && Expressible(s.labels[l].name) && !Listed(names, s.labels[l].name)
  }

  ghost function Release(s: Tags, account: AccountId, members: set<EmailId>, names: seq<string>): Tags {
    s.(mappings := set p | p in s.mappings && !(p.0 in members && Releasable(s, account, p.1, names)))
  }

  ghost predicate Changes(s: Tags, t: Tags, account: AccountId, members: set<EmailId>, names: seq<string>, mode: string)
  {
    if mode == "remove" then t == Detach(s, account, members, names)
    else if mode == "replace" then Attaches(Release(s, account, members, names), t, account, members, names)
    else Attaches(s, t, account, members, names)
  }

  // ---- the tables and the service call ----

  function Elements(ids: seq<EmailId>): set<EmailId> {
    set id | id in ids
  }

  datatype Outcome = Done | NotFound

  class TagStore {
    var mailboxes: map<string, AccountId>
    var folders: map<(string, string), string>
    var memberships: set<(string, EmailId)>
    var labels: map<LabelId, Label>
    var mappings: set<(EmailId, LabelId)>

    function View(): Tags
      reads this
    {
      Tags(labels, mappings)
    }

    ghost function MembersOf(folder: string, ids: seq<EmailId>): set<EmailId>
      reads this
    {
      set id | id in ids && (folder, id) in memberships
    }

    method FolderMembers(folder: string, ids: seq<EmailId>) returns (members: seq<EmailId>)
      ensures Enumerates(members, MembersOf(folder, ids))
    {
      members := [];
      for i := 0 to |ids|
        invariant Enumerates(members, MembersOf(folder, ids[..i]))
      {
        assert ids[..i + 1] == ids[..i] + [ids[i]];
        if (folder, ids[i]) in memberships && ids[i] !in members {
          members := members + [ids[i]];
        }
      }
      assert ids[..|ids|] == ids;
    }

    /** An id no row has used. */
    method NewId() returns (l: LabelId)
      ensures l !in labels
    {
      var used := labels.Keys;
      l := 0;
      while l in used
        invariant forall k :: k in labels ==> k < l || k in used
        decreases used
      {
        used, l := used - {l}, l + 1;
      }
    }

    method FindOrCreateLabel(account: AccountId, name: string) returns (l: LabelId)
      modifies this`labels
      ensures Resolves(old(View()), labels, account, name, l)
    {
      var rest := labels.Keys;
      while rest != {}
        invariant rest <= labels.Keys && labels == old(labels)
        invariant forall k :: k in labels && k !in rest ==> !NamesTag(View(), account, k, name)
        decreases rest
      {
        l :| l in rest;
        if labels[l].live && labels[l].account == account && Lower(labels[l].name) == Lower(name) {
          assert NamesTag(View(), account, l, name);
          return;
        }
        rest := rest - {l};
      }
      l := NewId();
      labels := labels[l := Label(account, name, true)];
    }

    method AttachKeywords(account: AccountId, members: seq<EmailId>, names: seq<string>)
      modifies this`labels, this`mappings
      ensures Attaches(old(View()), View(), account, Elements(members), names)
    {
      for i := 0 to |names|
        invariant Attaches(old(View()), View(), account, Elements(members), names[..i])
      {
        ghost var before := View();
        var l := FindOrCreateLabel(account, names[i]);
        ghost var resolved := labels;
        for j := 0 to |members|
          invariant labels == resolved
          invariant mappings == before.mappings + (set m | m in members[..j] :: (m, l))
        {
          assert members[..j + 1] == members[..j] + [members[j]];
          mappings := mappings + {(members[j], l)};
        }
        assert members[..|members|] == members;
        AttachOneMore(old(View()), before, View(), account, Elements(members), names, i, l);
      }
      assert names[..|names|] == names;
    }

    method LabelIds(account: AccountId, names: seq<string>) returns (ids: set<LabelId>)
      ensures ids == set l | l in labels && labels[l].live && labels[l].account == account
              && Listed(names, labels[l].name)
    {
      ids := set l | l in labels && labels[l].live && labels[l].account == account && Listed(names, labels[l].name);
    }

    method DetachKeywords(account: AccountId, members: seq<EmailId>, names: seq<string>)
      modifies this`mappings
      ensures View() == Detach(old(View()), account, Elements(members), names)
    {
      var ids := LabelIds(account, names);
      if ids == {} {
        assert forall l ::
            l in labels && labels[l].live && labels[l].account == account && Listed(names, labels[l].name) ==> l in ids;
        return;
      }
      mappings := set p | p in mappings && !(p.0 in members && p.1 in ids);
    }

    method ReleaseKeywords(account: AccountId, members: seq<EmailId>, names: seq<string>)
      modifies this`mappings
      ensures View() == Release(old(View()), account, Elements(members), names)
    {
      var rows := set p | p in mappings && p.0 in members && p.1 in labels && labels[p.1].live
          && labels[p.1].account == account :: p.1;
      var drop: set<LabelId> := {};
      var rest := rows;
      while rest != {}
        invariant rest <= rows && mappings == old(mappings)
        invariant forall l :: l in drop <==> l in rows - rest && Releasable(View(), account, l, names)
        decreases rest
      {
        var l :| l in rest;
        rest := rest - {l};
        var ok := IsIMAPKeyword(labels[l].name);
        if ok && !Listed(names, labels[l].name) {
          drop := drop + {l};
        }
      }
      forall p | p in mappings && p.0 in members
        ensures p.1 in drop <==> Releasable(View(), account, p.1, names)
      {
        assert Releasable(View(), account, p.1, names) ==> p.1 in rows;
      }
      mappings := set p | p in mappings && !(p.0 in members && p.1 in drop);
    }

    method SetKeywords(account: AccountId, members: seq<EmailId>, names: seq<string>, mode: string)
      modifies this`labels, this`mappings
      ensures Changes(old(View()), View(), account, Elements(members), names, mode)
    {
      if mode == "remove" {
        DetachKeywords(account, members, names);
      } else if mode == "replace" {
        ReleaseKeywords(account, members, names);
        AttachKeywords(account, members, names);
      } else {
        AttachKeywords(account, members, names);
      }
    }

    /** The messages of the folder get, lose or exchange the named tags; a missing
        mailbox or folder changes nothing. */
    method SetProtocolKeywords(mailbox: string, folder: string, ids: seq<EmailId>, keywords: seq<string>, mode: string)
      returns (outcome: Outcome)
      modifies this`labels, this`mappings
      ensures var vacuous := ids == [] || (Normalized(keywords) == [] && mode != "replace");
              outcome == NotFound <==> !vacuous && (mailbox !in mailboxes || (mailbox, folder) !in folders)
      ensures outcome == NotFound ==> View() == old(View())
      ensures outcome == Done && mailbox in mailboxes && (mailbox, folder) in folders ==>
                var members := old(MembersOf(folders[(mailbox, folder)], ids));
                if members == {} then View() == old(View())
                else Changes(old(View()), View(), mailboxes[mailbox], members, Normalized(keywords), mode)
      ensures ids == [] ==> View() == old(View())
    {
      if ids == [] {
        return Done;
      }
      var names := NormalizeKeywords(keywords);
      if |names| == 0 && mode != "replace" {
        NothingNamed(View(), if mailbox in mailboxes then mailboxes[mailbox] else 0, Elements(ids));
        return Done;
      }
      if mailbox !in mailboxes {
        return NotFound;
      }
      if (mailbox, folder) !in folders {
        return NotFound;
      }
      var members := FolderMembers(folders[(mailbox, folder)], ids);
      ghost var found := MembersOf(folders[(mailbox, folder)], ids);
      if |members| == 0 {
        return Done;
      }
      assert members[0] in found;
      assert Elements(members) == found;
      SetKeywords(mailboxes[mailbox], members, names, mode);
      return Done;
    }
  }

  lemma NothingNamed(s: Tags, account: AccountId, members: set<EmailId>)
    ensures Detach(s, account, members, []) == s
  {
  }

  lemma AttachOneMore(s: Tags, before: Tags, t: Tags, account: AccountId, members: set<EmailId>, names: seq<string>,
      i: nat, l: LabelId)
    requires i < |names| && Attaches(s, before, account, members, names[..i])
    requires Resolves(before, t.labels, account, names[i], l)
    requires t.mappings == before.mappings + (set m | m in members :: (m, l))
    ensures Attaches(s, t, account, members, names[..i + 1])
  {
    assert names[..i + 1][..i] == names[..i];
  }

  // ---- what attaching does ----

  /** The message carries a live tag of the account with that name, up to case. */
  ghost predicate Carries(s: Tags, account: AccountId, m: EmailId, name: string) {
    exists l: LabelId :: NamesTag(s, account, l, name) && (m, l) in s.mappings
  }

  ghost predicate LabelsKept(s: Tags, t: Tags) {
    forall l :: l in s.labels ==> l in t.labels && t.labels[l] == s.labels[l]
  }

  /** A live tag of the account whose name is listed. */
  ghost predicate ListedTag(s: Tags, account: AccountId, l: LabelId, names: seq<string>) {
    l in s.labels && s.labels[l].live && s.labels[l].account == account && Listed(names, s.labels[l].name)
  }

  /** Tags and mappings are only added: new tags are listed ones that did not
      exist, new mappings put listed tags on members. */
  ghost predicate OnlyAdds(s: Tags, t: Tags, account: AccountId, members: set<EmailId>, names: seq<string>) {
    && LabelsKept(s, t)
    && (forall l :: l in t.labels && l !in s.labels ==>
          ListedTag(t, account, l, names) && forall k :: !NamesTag(s, account, k, t.labels[l].name))
    && s.mappings <= t.mappings
    && (forall m, l :: (m, l) in t.mappings && (m, l) !in s.mappings ==>
       m in members && ListedTag(t, account, l, names))
  }

  lemma ListedMore(names: seq<string>, n: nat, name: string)
    requires n < |names|
    ensures Listed(names[..n + 1], name) <==> Listed(names[..n], name) || Lower(names[n]) == Lower(name)
  {
    assert forall i :: 0 <= i < n ==> names[..n + 1][i] == names[i] && names[..n][i] == names[i];
    assert names[..n + 1][n] == names[n];
  }

  lemma ResolvesKeeps(s: Tags, t: Tags, account: AccountId, name: string, l: LabelId)
    requires Resolves(s, t.labels, account, name, l)
    ensures LabelsKept(s, t) && NamesTag(t, account, l, name)
    ensures forall k :: k in t.labels && k !in s.labels ==>
              k == l && t.labels[l] == Label(account, name, true) && forall j :: !NamesTag(s, account, j, name)
  {
  }

  lemma AddsStep(s: Tags, before: Tags, t: Tags, account: AccountId, members: set<EmailId>, names: seq<string>,
      n: nat, l: LabelId)
    requires n < |names| && OnlyAdds(s, before, account, members, names[..n])
    requires Resolves(before, t.labels, account, names[n], l)
    requires t.mappings == before.mappings + (set m | m in members :: (m, l))
    ensures OnlyAdds(s, t, account, members, names[..n + 1])
  {
    ResolvesKeeps(before, t, account, names[n], l);
    hide Resolves, Listed;
    forall k | ListedTag(before, account, k, names[..n]) || k == l
      ensures ListedTag(t, account, k, names[..n + 1])
    {
      ListedMore(names, n, t.labels[k].name);
    }
    forall k | k in t.labels && k !in s.labels
      ensures ListedTag(t, account, k, names[..n + 1]) && forall j :: !NamesTag(s, account, j, t.labels[k].name)
    {
      if k !in before.labels {
        forall j ensures !NamesTag(s, account, j, t.labels[k].name) {
          assert NamesTag(s, account, j, t.labels[k].name) ==> NamesTag(before, account, j, names[n]);
        }
      }
    }
    forall m: EmailId, k: LabelId | (m, k) in t.mappings && (m, k) !in s.mappings
      ensures m in members && ListedTag(t, account, k, names[..n + 1])
    {
      if (m, k) !in before.mappings {
        assert m in members && k == l;
      }
    }
  }

  lemma CarriesStep(before: Tags, t: Tags, account: AccountId, m: EmailId, name: string)
    requires Carries(before, account, m, name) && LabelsKept(before, t) && before.mappings <= t.mappings
    ensures Carries(t, account, m, name)
  {
    var l: LabelId :| NamesTag(before, account, l, name) && (m, l) in before.mappings;
    assert NamesTag(t, account, l, name);
  }

  /** Attaching only adds, and every member ends with every listed tag. */
  lemma {:induction false} AttachAdds(s: Tags, t: Tags, account: AccountId, members: set<EmailId>, names: seq<string>)
    requires Attaches(s, t, account, members, names)
    ensures OnlyAdds(s, t, account, members, names)
    ensures forall m, i :: m in members && 0 <= i < |names| ==> Carries(t, account, m, names[i])
    decreases |names|
  {
    hide Resolves, OnlyAdds, Carries, NamesTag;
    if names == [] {
      AddsNothing(s, account, members);
    } else {
      var n := |names| - 1;
      var before: Tags, l :| Attaches(s, before, account, members, names[..n])
          && Resolves(before, t.labels, account, names[n], l)
        && t.mappings == before.mappings + (set m | m in members :: (m, l));
      AttachAdds(s, before, account, members, names[..n]);
      AddsStep(s, before, t, account, members, names, n, l);
      assert names[..n + 1] == names;
      ResolvesKeeps(before, t, account, names[n], l);
      forall m, i | m in members && 0 <= i < |names| ensures Carries(t, account, m, names[i]) {
        if i < n {
          assert names[..n][i] == names[i];
          CarriesStep(before, t, account, m, names[i]);
        } else {
          CarriesNow(t, account, m, names[n], l);
        }
      }
    }
  }

  lemma AddsNothing(s: Tags, account: AccountId, members: set<EmailId>)
    ensures OnlyAdds(s, s, account, members, [])
  {
  }

  lemma CarriesNow(t: Tags, account: AccountId, m: EmailId, name: string, l: LabelId)
    requires NamesTag(t, account, l, name) && (m, l) in t.mappings
    ensures Carries(t, account, m, name)
  {
  }

  // ---- the three modes ----

  /** Add: members gain the listed tags; nothing else changes. */
  lemma AddIsExact(s: Tags, t: Tags, account: AccountId, members: set<EmailId>, names: seq<string>,
      m: EmailId, l: LabelId)
    requires Changes(s, t, account, members, names, "add") && m in members
    ensures LabelsKept(s, t)
    ensures forall i :: 0 <= i < |names| ==> Carries(t, account, m, names[i])
    ensures (m, l) in t.mappings ==> (m, l) in s.mappings || ListedTag(t, account, l, names)
    ensures (m, l) in s.mappings ==> (m, l) in t.mappings
  {
    AttachAdds(s, t, account, members, names);
  }

  /** Messages outside `members` keep their mappings in every mode, tags of other
      accounts stay where they are, and no tag is deleted or renamed. */
  lemma OthersAreUntouched(s: Tags, t: Tags, account: AccountId, members: set<EmailId>, names: seq<string>,
      mode: string, m: EmailId, l: LabelId)
    requires Changes(s, t, account, members, names, mode)
    ensures LabelsKept(s, t)
    ensures m !in members || (l in s.labels && s.labels[l].account != account) ==>
            ((m, l) in t.mappings <==> (m, l) in s.mappings)
  {
    if mode == "replace" {
      AttachAdds(Release(s, account, members, names), t, account, members, names);
    } else if mode != "remove" {
      AttachAdds(s, t, account, members, names);
    }
  }

  /** Remove: exactly the listed live tags leave the members. */
  lemma RemoveIsExact(s: Tags, t: Tags, account: AccountId, members: set<EmailId>, names: seq<string>,
      m: EmailId, l: LabelId)
    requires Changes(s, t, account, members, names, "remove") && m in members
    ensures (m, l) in t.mappings <==> (m, l) in s.mappings && !ListedTag(s, account, l, names)
    ensures forall i :: 0 <= i < |names| ==> !Carries(t, account, m, names[i])
  {
    forall i, k: LabelId | 0 <= i < |names| && NamesTag(t, account, k, names[i])
      ensures (m, k) !in t.mappings
    {
      assert ListedTag(s, account, k, names);
    }
  }

  /** Replace: afterwards a member carries a tag of an IMAP name exactly when the
      name was listed, and tags that IMAP cannot name stay if unlisted. */
  lemma ReplaceIsExact(s: Tags, t: Tags, account: AccountId, members: set<EmailId>, names: seq<string>, m: EmailId,
      name: string)
    requires Changes(s, t, account, members, names, "replace") && m in members && Expressible(name)
    ensures Carries(t, account, m, name) <==> Listed(names, name)
  {
    var u := Release(s, account, members, names);
    AttachAdds(u, t, account, members, names);
    if Listed(names, name) {
      var i :| 0 <= i < |names| && Lower(names[i]) == Lower(name);
      assert Carries(t, account, m, names[i]);
      var l: LabelId :| NamesTag(t, account, l, names[i]) && (m, l) in t.mappings;
      assert NamesTag(t, account, l, name);
    } else if Carries(t, account, m, name) {
      var l: LabelId :| NamesTag(t, account, l, name) && (m, l) in t.mappings;
      SameListing(names, name, t.labels[l].name);
      FoldKeepsExpressible(name, t.labels[l].name);
      assert l in s.labels ==> Releasable(s, account, l, names);
    }
  }

  lemma SameListing(names: seq<string>, a: string, b: string)
    requires Lower(a) == Lower(b)
    ensures Listed(names, a) <==> Listed(names, b)
  {
  }

  /** Replace leaves alone every tag whose name IMAP cannot carry and the client
      did not list, and keeps every listed tag a member already had. */
  lemma ReplaceSpares(s: Tags, t: Tags, account: AccountId, members: set<EmailId>, names: seq<string>,
      m: EmailId, l: LabelId)
    requires Changes(s, t, account, members, names, "replace") && m in members && l in s.labels
    ensures !Expressible(s.labels[l].name) && !Listed(names, s.labels[l].name) ==>
            ((m, l) in t.mappings <==> (m, l) in s.mappings)
    ensures Listed(names, s.labels[l].name) && (m, l) in s.mappings ==> (m, l) in t.mappings
  {
    var u := Release(s, account, members, names);
    AttachAdds(u, t, account, members, names);
    assert !Releasable(s, account, l, names) && (m, l) in s.mappings ==> (m, l) in u.mappings;
  }

  /** Every mapping names an existing row. */
  ghost predicate Closed(s: Tags) {
    forall m, l :: (m, l) in s.mappings ==> l in s.labels
  }

  /** Adding tags that no member had and removing them again restores every
      mapping; the tags the first step created stay. */
  lemma AddThenRemove(s: Tags, t: Tags, u: Tags, account: AccountId, members: set<EmailId>, names: seq<string>)
    requires Closed(s) && Changes(s, t, account, members, names, "add")
             && Changes(t, u, account, members, names, "remove")
    requires forall m, i :: m in members && 0 <= i < |names| ==> !Carries(s, account, m, names[i])
    ensures u.mappings == s.mappings && LabelsKept(s, u)
  {
    AttachAdds(s, t, account, members, names);
    forall m: EmailId, l: LabelId | m in members && (m, l) in s.mappings
      ensures !ListedTag(t, account, l, names)
    {
      ListedIsCarried(s, t, account, names, m, l);
    }
    forall p ensures p in u.mappings <==> p in s.mappings {
      var (m, l) := p;
      assert (m, l) in t.mappings && (m, l) !in s.mappings ==> m in members && ListedTag(t, account, l, names);
    }
  }

  lemma ListedIsCarried(s: Tags, t: Tags, account: AccountId, names: seq<string>, m: EmailId, l: LabelId)
    requires LabelsKept(s, t) && l in s.labels && (m, l) in s.mappings
    ensures ListedTag(t, account, l, names) ==> exists i :: 0 <= i < |names| && Carries(s, account, m, names[i])
  {
    if ListedTag(t, account, l, names) {
      var i :| 0 <= i < |names| && Lower(names[i]) == Lower(t.labels[l].name);
      assert NamesTag(s, account, l, names[i]);
    }
  }

  /** Live tags of the account that differ at most in case are one tag. */
  ghost predicate Unambiguous(s: Tags, account: AccountId) {
    forall k, l, name :: NamesTag(s, account, k, name) && NamesTag(s, account, l, name) ==> k == l
  }

  /** No change creates a second tag for a name. */
  lemma {:induction false} AttachKeepsUnambiguous(s: Tags, t: Tags, account: AccountId, members: set<EmailId>,
      names: seq<string>)
    requires Unambiguous(s, account) && Attaches(s, t, account, members, names)
    ensures Unambiguous(t, account)
    decreases |names|
  {
    if names != [] {
      var n := |names| - 1;
      var before: Tags, l :| Attaches(s, before, account, members, names[..n])
          && Resolves(before, t.labels, account, names[n], l)
        && t.mappings == before.mappings + (set m | m in members :: (m, l));
      AttachKeepsUnambiguous(s, before, account, members, names[..n]);
      ResolveKeepsUnambiguous(before, t, account, names[n], l);
    }
  }

  lemma ResolveKeepsUnambiguous(s: Tags, t: Tags, account: AccountId, name: string, l: LabelId)
    requires Unambiguous(s, account) && Resolves(s, t.labels, account, name, l)
    ensures Unambiguous(t, account)
  {
    ResolvesKeeps(s, t, account, name, l);
    forall j: LabelId, k: LabelId, other | NamesTag(t, account, j, other) && NamesTag(t, account, k, other)
      ensures j == k
    {
      assert j in s.labels ==> NamesTag(s, account, j, other);
      assert k in s.labels ==> NamesTag(s, account, k, other);
      assert j == l || k == l ==> Lower(other) == Lower(name) || l in s.labels;
      assert Lower(other) == Lower(name) && j in s.labels ==> NamesTag(s, account, j, name);
      assert Lower(other) == Lower(name) && k in s.labels ==> NamesTag(s, account, k, name);
    }
  }

  // ---- what the client sees ----

  /** The keywords a FETCH shows for the message: live tags, without the scoped
      names and without those IMAP cannot carry. */
  ghost predicate Shows(s: Tags, m: EmailId, name: string) {
    exists l: LabelId ::
      && l in s.labels && s.labels[l].live && (m, l) in s.mappings
      && s.labels[l].name == name && !Scoped(name) && Expressible(name)
  }

  /** The message's tags all belong to its account. */
  ghost predicate OwnTags(s: Tags, account: AccountId, m: EmailId) {
    forall l: LabelId :: (m, l) in s.mappings ==> l in s.labels && s.labels[l].account == account
  }

  lemma CarriedShows(t: Tags, account: AccountId, m: EmailId, name: string)
    requires Carries(t, account, m, name) && Expressible(name) && !Scoped(name)
    ensures exists shown :: Shows(t, m, shown) && Lower(shown) == Lower(name)
  {
    var l: LabelId :| NamesTag(t, account, l, name) && (m, l) in t.mappings;
    FoldKeepsExpressible(name, t.labels[l].name);
    FoldKeepsKind(name, t.labels[l].name);
    assert Shows(t, m, t.labels[l].name);
  }

  lemma ShownCarries(t: Tags, account: AccountId, m: EmailId, shown: string, name: string)
    requires Shows(t, m, shown) && Lower(shown) == Lower(name) && OwnTags(t, account, m)
    ensures Carries(t, account, m, name) && Expressible(name)
  {
    var l: LabelId :| l in t.labels && t.labels[l].live && (m, l) in t.mappings && t.labels[l].name == shown
        && Expressible(shown);
    FoldKeepsExpressible(shown, name);
    assert NamesTag(t, account, l, name);
  }

  lemma ReplaceKeepsOwn(s: Tags, t: Tags, account: AccountId, members: set<EmailId>, names: seq<string>, m: EmailId)
    requires Changes(s, t, account, members, names, "replace") && OwnTags(s, account, m)
    ensures OwnTags(t, account, m)
  {
    AttachAdds(Release(s, account, members, names), t, account, members, names);
  }

  /** A replace followed by a fetch shows, up to case, the listed names that IMAP
      can carry and no other. */
  lemma StoreThenFetch(s: Tags, t: Tags, account: AccountId, members: set<EmailId>, keywords: seq<string>, m: EmailId,
      name: string)
    requires Changes(s, t, account, members, Normalized(keywords), "replace") && m in members && OwnTags(s, account, m)
    requires name != "" && !System(name) && !Scoped(name)
    ensures (exists shown :: Shows(t, m, shown) && Lower(shown) == Lower(name)) <==>
            Expressible(name) && Requested(keywords, name)
  {
    hide Changes, Normalized, OwnTags, Shows, Carries, Requested, Listed, Expressible;
    NormalizedListsRequested(keywords, name);
    ReplaceKeepsOwn(s, t, account, members, Normalized(keywords), m);
    if Expressible(name) {
      ReplaceIsExact(s, t, account, members, Normalized(keywords), m, name);
      if Carries(t, account, m, name) {
        CarriedShows(t, account, m, name);
      }
    }
    if shown :| Shows(t, m, shown) && Lower(shown) == Lower(name) {
      ShownCarries(t, account, m, shown, name);
    }
  }

  /** What replace takes from a member was visible to the client exactly when its
      name is not scoped: a `$` tag made outside IMAP is dropped unseen, though
      the service's comments promise to leave unobservable tags alone. */
  lemma DroppedUnseen(s: Tags, t: Tags, account: AccountId, members: set<EmailId>, keywords: seq<string>,
      m: EmailId, l: LabelId)
    requires Changes(s, t, account, members, Normalized(keywords), "replace") && m in members
    requires (m, l) in s.mappings && (m, l) !in t.mappings
    ensures l in s.labels && s.labels[l].live
    ensures Shows(s, m, s.labels[l].name) <==> !Scoped(s.labels[l].name)
  {
    var names := Normalized(keywords);
    AttachAdds(Release(s, account, members, names), t, account, members, names);
    assert Releasable(s, account, l, names);
  }

  /** A concrete loss: an empty replace on a message tagged `$Pay` over HTTP. */
  lemma ScopedTagIsLost()
    ensures var s := Tags(map[1 := Label(7, "$Pay", true)], {("e", 1)});
            forall t :: Changes(s, t, 7, {"e"}, Normalized([]), "replace") ==> ("e", 1) !in t.mappings
    ensures var s := Tags(map[1 := Label(7, "$Pay", true)], {("e", 1)});
            forall name :: !Shows(s, "e", name)
  {
    var s := Tags(map[1 := Label(7, "$Pay", true)], {("e", 1)});
    assert Expressible("$Pay");
    assert Releasable(s, 7, 1, []);
  }
}
