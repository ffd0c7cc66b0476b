/** Whole histories of the tag tables: protocol keyword changes interleaved with
    the tags and assignments made over HTTP and with purged messages. */
module TagRuns {
  import opened Text
  import opened Keywords

  /** The writers of the tag tables. `ours` is false when the service finds that
      the message does not belong to the caller. */
  datatype Event =
    | Store(account: AccountId, members: set<EmailId>, names: seq<string>, mode: string)
    | Create(account: AccountId, name: string)
    | Delete(account: AccountId, tag: LabelId)
    | Assign(account: AccountId, email: EmailId, tag: LabelId, on: bool, ours: bool)
    | Purge(email: EmailId)

  /** The row of a live tag of the account. */
  predicate OwnLive(s: Tags, account: AccountId, l: LabelId) {
    l in s.labels && s.labels[l].live && s.labels[l].account == account
  }

  ghost predicate Happens(s: Tags, t: Tags, e: Event) {
    match e
    case Store(account, members, names, mode) => Changes(s, t, account, members, names, mode)
    case Create(account, name) =>
      if Trim(name) == "" || |Trim(name)| > 128 then t == s
      else exists l: LabelId :: l !in s.labels && t == s.(labels := s.labels[l := Label(account, Trim(name), true)])
    case Delete(account, l) =>
      if !OwnLive(s, account, l) then t == s
      else t == Tags(s.labels[l := s.labels[l].(live := false)], set p | p in s.mappings && p.1 != l)
    case Assign(account, email, l, on, ours) =>
      if !ours || !OwnLive(s, account, l) then t == s
      else t == s.(mappings := if on then s.mappings + {(email, l)} else s.mappings - {(email, l)})
    case Purge(email) => t == s.(mappings := set p | p in s.mappings && p.0 != email)
  }

  /** `states` are the tables before and after each of the events. */
  ghost predicate History(states: seq<Tags>, events: seq<Event>) {
    && |states| == |events| + 1 && states[0] == Tags(map[], {})
    && forall i :: 0 <= i < |events| ==> Happens(states[i], states[i + 1], events[i])
  }

  /** Every mapping names a live tag. */
  ghost predicate Healthy(s: Tags) {
    forall m: EmailId, l: LabelId :: (m, l) in s.mappings ==> l in s.labels && s.labels[l].live
  }

  lemma AddsKeepHealthy(s: Tags, t: Tags, account: AccountId, members: set<EmailId>, names: seq<string>)
    requires Healthy(s) && OnlyAdds(s, t, account, members, names)
    ensures Healthy(t)
  {
    hide Listed, Lower;
    forall m: EmailId, l: LabelId | (m, l) in t.mappings ensures l in t.labels && t.labels[l].live {
      assert (m, l) in s.mappings || ListedTag(t, account, l, names);
    }
  }

  lemma ChangesKeepHealthy(s: Tags, t: Tags, account: AccountId, members: set<EmailId>, names: seq<string>,
      mode: string)
    requires Healthy(s) && Changes(s, t, account, members, names, mode)
    ensures Healthy(t)
  {
    hide Attaches, OnlyAdds, ListedTag, Listed, Releasable;
    if mode == "replace" {
      var u := Release(s, account, members, names);
      AttachAdds(u, t, account, members, names);
      AddsKeepHealthy(u, t, account, members, names);
    } else if mode != "remove" {
      AttachAdds(s, t, account, members, names);
      AddsKeepHealthy(s, t, account, members, names);
    }
  }

  lemma EventKeepsHealthy(s: Tags, t: Tags, e: Event)
    requires Healthy(s) && Happens(s, t, e)
    ensures Healthy(t)
  {
    hide Changes, Trim;
    if e.Store? {
      ChangesKeepHealthy(s, t, e.account, e.members, e.names, e.mode);
    }
  }

  /** At every point of a history each mapping names a live tag. */
  lemma {:induction false} HistoryIsHealthy(states: seq<Tags>, events: seq<Event>, i: nat)
    requires History(states, events) && i < |states|
    ensures Healthy(states[i])
  {
    hide Happens, Healthy;
    if i == 0 {
      NothingIsHealthy();
    } else {
      HistoryIsHealthy(states, events, i - 1);
      assert Happens(states[i - 1], states[i - 1 + 1], events[i - 1]);
      EventKeepsHealthy(states[i - 1], states[i], events[i - 1]);
    }
  }

  lemma NothingIsHealthy()
    ensures Healthy(Tags(map[], {}))
  {
  }

  /** Only a deletion over HTTP ends a tag; nothing else changes its row. */
  lemma EventKeepsLabels(s: Tags, t: Tags, e: Event, l: LabelId)
    requires Happens(s, t, e) && l in s.labels
    ensures l in t.labels
    ensures t.labels[l] == s.labels[l] || (e.Delete? && e.tag == l && t.labels[l] == s.labels[l].(live := false))
  {
    hide Changes, Trim;
    if e.Store? {
      OthersAreUntouched(s, t, e.account, e.members, e.names, e.mode, "", l);
    }
  }

  /** Over a whole history no tag is lost or renamed, and a tag that is live at one
      point and not at a later one was deleted over HTTP in between. */
  lemma {:induction false} TagsAreKept(states: seq<Tags>, events: seq<Event>, i: nat, j: nat, l: LabelId)
    requires History(states, events) && i <= j < |states| && l in states[i].labels
    ensures l in states[j].labels
    ensures states[j].labels[l].(live := true) == states[i].labels[l].(live := true)
    ensures states[i].labels[l].live && !states[j].labels[l].live ==>
              exists k :: i <= k < j && events[k].Delete? && events[k].tag == l
    decreases j
  {
    hide Happens;
    if i < j {
      TagsAreKept(states, events, i, j - 1, l);
      assert Happens(states[j - 1], states[j - 1 + 1], events[j - 1]);
      EventKeepsLabels(states[j - 1], states[j], events[j - 1], l);
    }
  }

  /** At any point of a history, adding tags that no member carries and removing
      them again restores every mapping, and keeps every tag. */
  lemma RemoveUndoesAdd(states: seq<Tags>, events: seq<Event>, i: nat, t: Tags, u: Tags,
                        account: AccountId, members: set<EmailId>, names: seq<string>)
    requires History(states, events) && i < |states|
    requires Changes(states[i], t, account, members, names, "add") && Changes(t, u, account, members, names, "remove")
    requires forall m, k :: m in members && 0 <= k < |names| ==> !Carries(states[i], account, m, names[k])
    ensures u.mappings == states[i].mappings && LabelsKept(states[i], u)
  {
    hide Changes, History, Carries, LabelsKept;
    HistoryIsHealthy(states, events, i);
    AddThenRemove(states[i], t, u, account, members, names);
  }
}
