/** The status of a MasterUserRecord and how it follows the UserAccounts on the member clusters. */
module MurStatus {
  import opened Base

  datatype Condition = Condition(isTrue: bool, reason: string, message: string)

  /** What a UserAccount reports: its Ready condition, if any, and the rest of its status. */
  datatype AccountStatus = AccountStatus(ready: Option<Condition>, detail: string)

  datatype Entry = Entry(cluster: string, status: AccountStatus)

  datatype Status = Status(accounts: seq<Entry>, ready: Option<Condition>, notified: bool, provisioned: Option<int>)

  datatype Mur = Mur(spec: string, skipSpace: bool, beingDeleted: bool, finalizer: bool, status: Status)

  /** The copy a reconcile works on, and the stored object. */
  datatype Copies = Copies(mem: Mur, saved: Mur)

  /** Which of the calls made while following one member's account fail. */
  datatype SyncCalls = SyncCalls(detailsFail: bool, notifyFails: bool, writeFails: bool)

  const PROVISIONED := Condition(true, "Provisioned", "")
  const PROVISIONING := Condition(false, "Provisioning", "")
  const DISABLED := Condition(false, "Disabled", "")

  // ---------- The list of accounts ----------

  /** At most one entry per cluster. */
  ghost predicate OnePerCluster(accounts: seq<Entry>) {
    forall i, j | 0 <= i < j < |accounts| :: accounts[i].cluster != accounts[j].cluster
  }

  predicate Lists(accounts: seq<Entry>, cluster: string) {
    exists i | 0 <= i < |accounts| :: accounts[i].cluster == cluster
  }

  /** The first position of a cluster, or the length of the list. */
  function IndexOf(accounts: seq<Entry>, cluster: string): (i: nat)
    ensures i <= |accounts|
    ensures i < |accounts| ==> accounts[i].cluster == cluster
    ensures forall j | 0 <= j < i :: accounts[j].cluster != cluster
    ensures i < |accounts| <==> Lists(accounts, cluster)
  {
    if accounts == [] then 0
    else if accounts[0].cluster == cluster then 0
    else
      var rest := IndexOf(accounts[1..], cluster);
      assert forall j | 0 < j < |accounts| :: accounts[j] == accounts[1..][j - 1];
      rest + 1
  }

  function WithEntry(accounts: seq<Entry>, e: Entry): seq<Entry> {
    var i := IndexOf(accounts, e.cluster);
    if i == |accounts| then accounts + [e] else accounts[i := e]
  }

  function WithoutCluster(accounts: seq<Entry>, cluster: string): seq<Entry> {
    var i := IndexOf(accounts, cluster);
    if i == |accounts| then accounts else accounts[..i] + accounts[i + 1..]
  }

  /** The named cluster shows exactly the entry; every other entry is kept; clusters stay distinct. */
  lemma WithEntrySets(accounts: seq<Entry>, e: Entry)
    requires OnePerCluster(accounts)
    ensures var r := WithEntry(accounts, e);
            OnePerCluster(r) && forall x :: x in r <==> x == e || (x in accounts && x.cluster != e.cluster)
  {
    var i := IndexOf(accounts, e.cluster);
    var r := WithEntry(accounts, e);
    forall x ensures x in r <==> x == e || (x in accounts && x.cluster != e.cluster) {
      if x in accounts && x.cluster != e.cluster {
        var k :| 0 <= k < |accounts| && accounts[k] == x;
        assert r[k] == x;
      }
      if x == e {
        assert r[i] == e;
      }
    }
  }

  lemma CutElements(accounts: seq<Entry>, i: nat, x: Entry)
    requires i < |accounts|
    ensures x in accounts[..i] + accounts[i + 1..] <==> exists k :: 0 <= k < |accounts| && k != i && accounts[k] == x
  {
    var r := accounts[..i] + accounts[i + 1..];
    if x in r {
      var k :| 0 <= k < |r| && r[k] == x;
      assert x == accounts[if k < i then k else k + 1];
    }
    if k :| 0 <= k < |accounts| && k != i && accounts[k] == x {
      assert r[if k < i then k else k - 1] == x;
    }
  }

  lemma CutStaysDistinct(accounts: seq<Entry>, i: nat)
    requires OnePerCluster(accounts) && i < |accounts|
    ensures OnePerCluster(accounts[..i] + accounts[i + 1..])
  {
    var r := accounts[..i] + accounts[i + 1..];
    assert forall k | 0 <= k < |r| :: r[k] == accounts[if k < i then k else k + 1];
  }

  /** The cluster is gone; every other entry is kept. */
  lemma WithoutClusterDrops(accounts: seq<Entry>, cluster: string)
    requires OnePerCluster(accounts)
    ensures OnePerCluster(WithoutCluster(accounts, cluster))
    ensures forall x :: x in WithoutCluster(accounts, cluster) <==> x in accounts && x.cluster != cluster
  {
    var i := IndexOf(accounts, cluster);
    if i < |accounts| {
      CutStaysDistinct(accounts, i);
      assert WithoutCluster(accounts, cluster) == accounts[..i] + accounts[i + 1..];
      forall x ensures x in WithoutCluster(accounts, cluster) <==> x in accounts && x.cluster != cluster {
        CutElements(accounts, i, x);
      }
    }
  }

  // ---------- Readiness ----------

  predicate IsReady(e: Entry) {
    e.status.ready.Some? && e.status.ready.value.isTrue
  }

  predicate AllReady(accounts: seq<Entry>) {
    forall e | e in accounts :: IsReady(e)
  }

  predicate IsDisabled(e: Entry) {
    e.status.ready.Some? && e.status.ready.value.reason == "UserAccountDisabled"
  }

  datatype Alignment = Alignment(mur: Mur, ready: bool, ok: bool)

  /**
   * Ready once every listed account is, stamping the provisioned time the first time; an unready account leaves
   * the record as it is.
   */
  function AlignReadiness(m: Mur, now: int, notifyFails: bool): Alignment {
    if exists e | e in m.status.accounts :: !IsReady(e) then
      Alignment(m, false, true)
    else if !m.skipSpace && m.status.accounts == [] && m.status.provisioned.None? then
      Alignment(m.(status := m.status.(ready := Some(PROVISIONING))), false, true)
    else
      var at := if m.status.provisioned.None? then Some(now) else m.status.provisioned;
      var s := m.status.(ready := Some(PROVISIONED), provisioned := at);
      if s.notified then Alignment(m.(status := s), true, true)
      else if notifyFails then Alignment(m.(status := s), false, false)
      else Alignment(m.(status := s.(notified := true)), true, true)
  }

  function AlignDisabled(m: Mur): Mur {
    if m.status.accounts != [] && forall e | e in m.status.accounts :: IsDisabled(e)
    then m.(status := m.status.(ready := Some(DISABLED)))
    else m
  }

  // ---------- Following one member ----------

  function WriteStatus(c: Copies, fails: bool): (Copies, bool) {
    if fails then (c, false) else (c.(saved := c.saved.(status := c.mem.status)), true)
  }

  function Listing(m: Mur, accounts: seq<Entry>): Mur {
    m.(status := m.status.(accounts := accounts))
  }

  predicate UpToDate(m: Mur, e: Entry) {
    var i := IndexOf(m.status.accounts, e.cluster);
    i < |m.status.accounts| && m.status.accounts[i] == e
  }

  function SynchronizedStatus(c: Copies, e: Entry, now: int, calls: SyncCalls): (Copies, bool) {
    if e.cluster != "" && calls.detailsFail then (c, false)
    else
      var accounts := WithEntry(c.mem.status.accounts, e);
      Followed(c, AlignReadiness(Listing(c.mem, accounts), now, calls.notifyFails), UpToDate(c.mem, e),
          calls.writeFails)
  }

  /** What comes after the alignment; a failed write takes the change of the list back. */
  function Followed(c: Copies, a: Alignment, upToDate: bool, writeFails: bool): (Copies, bool) {
    if !a.ok then (c.(mem := a.mur), false)
    else if upToDate then WriteStatus(c.(mem := a.mur), writeFails)
    else
      var m := if a.ready then a.mur else AlignDisabled(a.mur);
      if writeFails then (c.(mem := Listing(m, c.mem.status.accounts)), false)
      else WriteStatus(c.(mem := m), false)
  }

  function AccountRemoved(c: Copies, cluster: string, now: int, calls: SyncCalls): (Copies, bool) {
    if !Lists(c.mem.status.accounts, cluster) then (c, true)
    else
      var m := Listing(c.mem, WithoutCluster(c.mem.status.accounts, cluster));
      if m.beingDeleted then WriteStatus(c.(mem := m), calls.writeFails)
      else
        var a := AlignReadiness(m, now, calls.notifyFails);
        if !a.ok then (c.(mem := a.mur), false) else WriteStatus(c.(mem := a.mur), calls.writeFails)
  }

  // ---------- What every step keeps ----------

  /** Both copies list a cluster at most once, and a stored provisioned time is the one worked with. */
  ghost predicate Sound(c: Copies) {
    && OnePerCluster(c.mem.status.accounts) && OnePerCluster(c.saved.status.accounts)
    && (c.saved.status.provisioned.Some? ==> c.mem.status.provisioned == c.saved.status.provisioned)
  }

  predicate SetOnce(m: Mur, n: Mur) {
    m.status.provisioned.Some? ==> n.status.provisioned == m.status.provisioned
  }

  predicate SameMeta(m: Mur, n: Mur) {
    n.(status := m.status) == m
  }

  /** A provisioned time never changes once it is set, and nothing but the status changes. */
  predicate Advances(c: Copies, d: Copies) {
    SetOnce(c.mem, d.mem) && SetOnce(c.saved, d.saved) && SameMeta(c.mem, d.mem) && SameMeta(c.saved, d.saved)
  }

  lemma AlignmentKeeps(m: Mur, now: int, notifyFails: bool)
    ensures var a := AlignReadiness(m, now, notifyFails);
            a.mur.status.accounts == m.status.accounts && SetOnce(m, a.mur) && SameMeta(m, a.mur)
    ensures var a := AlignReadiness(m, now, notifyFails);
            a.ready ==>
                  a.mur.status.provisioned.Some? && a.mur.status.notified
                  && a.mur.status.ready == Some(PROVISIONED)
                  && forall e | e in m.status.accounts :: IsReady(e)
  {
  }

  lemma DisablingKeeps(m: Mur)
    ensures AlignDisabled(m).status.accounts == m.status.accounts && SetOnce(m, AlignDisabled(m))
            && SameMeta(m, AlignDisabled(m))
    ensures AlignDisabled(m).status.provisioned == m.status.provisioned
  {
  }

  lemma WriteKeeps(c: Copies, d: Copies, fails: bool)
    requires Sound(c) && d.saved == c.saved && OnePerCluster(d.mem.status.accounts)
    requires SetOnce(c.mem, d.mem) && SameMeta(c.mem, d.mem)
    ensures Sound(d) && Sound(WriteStatus(d, fails).0) && Advances(c, WriteStatus(d, fails).0)
  {
  }

  lemma FollowedKeeps(c: Copies, a: Alignment, upToDate: bool, writeFails: bool)
    requires Sound(c) && OnePerCluster(a.mur.status.accounts) && SetOnce(c.mem, a.mur) && SameMeta(c.mem, a.mur)
    ensures Sound(Followed(c, a, upToDate, writeFails).0) && Advances(c, Followed(c, a, upToDate, writeFails).0)
  {
    DisablingKeeps(a.mur);
    var m := if a.ready then a.mur else AlignDisabled(a.mur);
    WriteKeeps(c, c.(mem := a.mur), writeFails);
    WriteKeeps(c, c.(mem := m), false);
    WriteKeeps(c, c.(mem := Listing(m, c.mem.status.accounts)), true);
  }

  /** Every outcome, failed or not, keeps the invariants. */
  lemma SynchronizingKeeps(c: Copies, e: Entry, now: int, calls: SyncCalls)
    requires Sound(c)
    ensures Sound(SynchronizedStatus(c, e, now, calls).0) && Advances(c, SynchronizedStatus(c, e, now, calls).0)
  {
    var accounts := WithEntry(c.mem.status.accounts, e);
    WithEntrySets(c.mem.status.accounts, e);
    AlignmentKeeps(Listing(c.mem, accounts), now, calls.notifyFails);
    FollowedKeeps(c, AlignReadiness(Listing(c.mem, accounts), now, calls.notifyFails), UpToDate(c.mem, e),
        calls.writeFails);
  }

  /** On success the stored list shows the account exactly as the member reports it, and every other entry as it was. */
  lemma SynchronizedMirrorsMember(c: Copies, e: Entry, now: int, calls: SyncCalls)
    requires Sound(c) && SynchronizedStatus(c, e, now, calls).1
    ensures var d := SynchronizedStatus(c, e, now, calls).0;
            d.saved.status == d.mem.status
            && forall x :: x in d.saved.status.accounts <==>
                  x == e || (x in c.mem.status.accounts && x.cluster != e.cluster)
  {
    var accounts := WithEntry(c.mem.status.accounts, e);
    WithEntrySets(c.mem.status.accounts, e);
    var a := AlignReadiness(Listing(c.mem, accounts), now, calls.notifyFails);
    AlignmentKeeps(Listing(c.mem, accounts), now, calls.notifyFails);
    DisablingKeeps(a.mur);
    assert SynchronizedStatus(c, e, now, calls).0.mem.status.accounts == accounts;
  }

  /**
   * What a failure leaves behind. The list is as it was, unless the change made all accounts ready, the user has not
   * been notified yet, and the notification fails: that path returns without undoing the change.
   */
  lemma RollbackIsExact(c: Copies, e: Entry, now: int, calls: SyncCalls)
    requires !SynchronizedStatus(c, e, now, calls).1
    ensures SynchronizedStatus(c, e, now, calls).0.saved == c.saved
    ensures SynchronizedStatus(c, e, now, calls).0.mem.status.accounts == c.mem.status.accounts
            <==> || (e.cluster != "" && calls.detailsFail)
                 || UpToDate(c.mem, e)
                 || !(AllReady(WithEntry(c.mem.status.accounts, e)) && !c.mem.status.notified && calls.notifyFails)
  {
    var accounts := WithEntry(c.mem.status.accounts, e);
    AlignmentKeeps(Listing(c.mem, accounts), now, calls.notifyFails);
    var i := IndexOf(c.mem.status.accounts, e.cluster);
    assert i < |accounts| && accounts[i] == e;
    if UpToDate(c.mem, e) {
      assert accounts == c.mem.status.accounts;
    }
  }

  /** The unprotected path is real: a new account, all ready, and a notification that cannot be created. */
  lemma FailedNotificationLeavesTheEntry(c: Copies, e: Entry, now: int)
    requires c.mem.status == Status([], None, false, None) && IsReady(e)
    ensures var (d, ok) := SynchronizedStatus(c, e, now, SyncCalls(false, true, false));
            !ok && d.mem.status.accounts == [e] && d.saved == c.saved
  {
    assert [] + [e] == [e];
  }

  /** Every outcome keeps the invariants; on success the stored list has lost the cluster and nothing else. */
  lemma RemovingKeeps(c: Copies, cluster: string, now: int, calls: SyncCalls)
    requires Sound(c)
    ensures var (d, ok) := AccountRemoved(c, cluster, now, calls);
            && Sound(d) && Advances(c, d)
            && (ok && c.saved.status == c.mem.status ==> d.saved.status == d.mem.status)
            && (ok ==> forall x :: x in d.mem.status.accounts <==> x in c.mem.status.accounts && x.cluster != cluster)
  {
    WithoutClusterDrops(c.mem.status.accounts, cluster);
    AlignmentKeeps(Listing(c.mem, WithoutCluster(c.mem.status.accounts, cluster)), now, calls.notifyFails);
    if !Lists(c.mem.status.accounts, cluster) {
      forall x | x in c.mem.status.accounts ensures x.cluster != cluster {
        var k :| 0 <= k < |c.mem.status.accounts| && c.mem.status.accounts[k] == x;
      }
    }
  }
}
