/** The mailbox quota: archive the oldest active messages of a workspace until
    its active mail fits the limit. */
module Quota {
  import opened SetSum
  import opened Wrappers

  type EmailId = nat

  /** `active` is archived_at IS NULL; `deleteAt` the retention deadline. */
  datatype Mail = Mail(workspace: string, createdAt: int, size: nat, active: bool, deleteAt: int)

  type Table = map<EmailId, Mail>

  function ActiveIds(t: Table, workspace: string): set<EmailId> {
    set id | id in t && t[id].workspace == workspace && t[id].active
  }

  /** (created_at, id) order. */
  predicate Before(t: Table, a: EmailId, b: EmailId)
    requires a in t && b in t
  {
    t[a].createdAt < t[b].createdAt || (t[a].createdAt == t[b].createdAt && a < b)
  }

  ghost function SizeOf(t: Table): EmailId -> int {
    id => if id in t then t[id].size else 0
  }

  ghost function Size(t: Table, ids: set<EmailId>): int {
    Sum(ids, SizeOf(t))
  }

  /** `ids` is a prefix of the workspace's active messages, oldest first. */
  ghost predicate IsPrefix(t: Table, workspace: string, ids: set<EmailId>) {
    && ids <= ActiveIds(t, workspace)
    && forall a, b :: a in ActiveIds(t, workspace) && b in ids && Before(t, a, b) ==> a in ids
  }

  /** Archiving `ids` brings the usage that starts at `used` within the limit. */
  ghost predicate Fits(t: Table, ids: set<EmailId>, used: int, limit: int) {
    used - Size(t, ids) <= limit
  }

  function Archived(t: Table, ids: set<EmailId>, deadline: int): Table {
    map id | id in t :: if id in ids then t[id].(active := false, deleteAt := deadline) else t[id]
  }

  lemma SizeSplit(t: Table, a: set<EmailId>, b: set<EmailId>)
    requires a <= b
    ensures Size(t, b) == Size(t, a) + Size(t, b - a)
    ensures Size(t, b - a) >= 0
  {
    assert a + (b - a) == b;
    SumUnion(a, b - a, SizeOf(t));
    SumNonNegative(b - a, SizeOf(t));
  }

  lemma SizeOfOne(t: Table, ids: set<EmailId>, id: EmailId)
    requires id in ids && id in t
    ensures Size(t, ids) == t[id].size + Size(t, ids - {id})
  {
    SumWithout(ids, SizeOf(t), id);
  }

  lemma EmptyPrefix(t: Table, workspace: string)
    ensures IsPrefix(t, workspace, {}) && Size(t, {}) == 0
  {
  }

  lemma ArchivedFacts(t: Table, workspace: string, ids: set<EmailId>, deadline: int)
    ensures ids == {} ==> Archived(t, ids, deadline) == t
    ensures ActiveIds(Archived(t, ids, deadline), workspace) == ActiveIds(t, workspace) - ids
    ensures forall a, b :: a in t && b in t ==> Before(Archived(t, ids, deadline), a, b) == Before(t, a, b)
    ensures forall a :: a in t ==> Archived(t, ids, deadline)[a].size == t[a].size
  {
  }

  lemma ArchivedOneMore(t: Table, ids: set<EmailId>, id: EmailId, deadline: int)
    requires id in t
    ensures var u := Archived(t, ids, deadline);
            u[id := u[id].(active := false, deleteAt := deadline)] == Archived(t, ids + {id}, deadline)
  {
  }

  class MailTable {
    var mails: Table

    /** ORDER BY created_at, id LIMIT 1 over the active messages. */
    method FindOldest(workspace: string) returns (found: bool, oldest: EmailId)
      ensures found <==> ActiveIds(mails, workspace) != {}
      ensures found ==> oldest in ActiveIds(mails, workspace)
      ensures found ==> forall id :: id in ActiveIds(mails, workspace) && id != oldest ==> Before(mails, oldest, id)
    {
      var rest := ActiveIds(mails, workspace);
      found, oldest := false, 0;
      while rest != {}
        invariant rest <= ActiveIds(mails, workspace)
        invariant found <==> rest != ActiveIds(mails, workspace)
        invariant found ==> oldest in ActiveIds(mails, workspace) - rest
        invariant found ==> forall id :: id in ActiveIds(mails, workspace) - rest && id != oldest ==>
                  Before(mails, oldest, id)
        decreases rest
      {
        var id :| id in rest;
        ghost var previous := oldest;
        if !found || Before(mails, id, oldest) {
          oldest := id;
        }
        forall other | other in ActiveIds(mails, workspace) - (rest - {id}) && other != oldest
          ensures Before(mails, oldest, other)
        {
          assert other == id || other == previous || Before(mails, previous, other);
        }
        found, rest := true, rest - {id};
      }
    }

    /** enforceWorkspaceMailboxQuota. With no shared quota client `shared` is
        None and usage is the active mail itself; otherwise it is what the
        client reported. The run fails, changing nothing, exactly when it would
        need to archive more mail than there is, which without a shared client
        it never does. Otherwise it archives the
        shortest prefix that fits, and changes no other message. */
    method EnforceQuota(workspace: string, limit: int, shared: Option<int>, deadline: int) returns (ok: bool,
        ghost archived: set<EmailId>)
      modifies this
      ensures var t, active := old(mails), ActiveIds(old(mails), workspace);
              var used := if shared.Some? then shared.value else Size(t, active);
              && (ok <==> Fits(t, active, used, limit))
              && (!ok ==> mails == t)
              && (shared.None? && limit > 0 ==> ok)
              && (ok ==>
                    && mails == Archived(t, archived, deadline)
                    && IsPrefix(t, workspace, archived) && Fits(t, archived, used, limit)
                    && forall b :: IsPrefix(t, workspace, b) && Fits(t, b, used, limit) ==> archived <= b)
    {
      hide Archived, IsPrefix;
      var saved := mails;
      archived := {};
      ghost var t, active := mails, ActiveIds(mails, workspace);
      var used: int;
      if shared.Some? {
        used := shared.value;
      } else {
        used := SumSizes(workspace);
      }
      ghost var start := used;
      ArchivedFacts(t, workspace, {}, deadline);
      EmptyPrefix(t, workspace);
      while used > limit
        invariant archived <= active
        invariant mails == Archived(t, archived, deadline)
        invariant IsPrefix(t, workspace, archived)
        invariant used == start - Size(t, archived)
        invariant forall b :: IsPrefix(t, workspace, b) && Fits(t, b, start, limit) ==> archived <= b
        decreases active - archived
      {
        ArchivedFacts(t, workspace, archived, deadline);
        var found, oldest := FindOldest(workspace);
        if !found {
          assert active - archived == {} && archived + (active - archived) == active;
          mails := saved;
          return false, {};
        }
        NextIsForced(t, workspace, archived, oldest, start, limit);
        SizeOfOne(t, archived + {oldest}, oldest);
        assert archived + {oldest} - {oldest} == archived;
        used := used - mails[oldest].size;
        mails := mails[oldest := mails[oldest].(active := false, deleteAt := deadline)];
        ArchivedOneMore(t, archived, oldest, deadline);
        archived := archived + {oldest};
      }
      SizeSplit(t, archived, active);
      ok := true;
    }

    method SumSizes(workspace: string) returns (used: int)
      ensures used == Size(mails, ActiveIds(mails, workspace))
    {
      used := 0;
      var rest := ActiveIds(mails, workspace);
      while rest != {}
        invariant rest <= ActiveIds(mails, workspace)
        invariant used + Size(mails, rest) == Size(mails, ActiveIds(mails, workspace))
        decreases rest
      {
        var id :| id in rest;
        SizeOfOne(mails, rest, id);
        used := used + mails[id].size;
        rest := rest - {id};
      }
    }
  }

  /** While the usage is above the limit, every prefix that fits contains the
      next oldest message; adding it keeps a prefix. */
  lemma NextIsForced(t: Table, workspace: string, archived: set<EmailId>, oldest: EmailId, start: int, limit: int)
    requires IsPrefix(t, workspace, archived) && !Fits(t, archived, start, limit)
    requires oldest in ActiveIds(t, workspace) - archived
    requires forall id :: id in ActiveIds(t, workspace) - archived && id != oldest ==> Before(t, oldest, id)
    ensures IsPrefix(t, workspace, archived + {oldest})
    ensures forall b :: IsPrefix(t, workspace, b) && Fits(t, b, start, limit) && archived <= b ==> oldest in b
  {
    forall a | a in ActiveIds(t, workspace) - archived
      ensures !Before(t, a, oldest)
    {
      if a != oldest {
        assert Before(t, oldest, a);
      }
    }
    forall b | IsPrefix(t, workspace, b) && Fits(t, b, start, limit) && archived <= b
      ensures oldest in b
    {
      assert b != archived && archived + (b - archived) == b;
      assert archived + {} == archived;
      assert b - archived != {};
      var x :| x in b - archived;
      assert x == oldest || Before(t, oldest, x);
    }
  }
}
