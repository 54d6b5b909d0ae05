/**
 * The bot's persistent store (bot/database/mongo_db.py): the `groups`
 * collection of channel records, the `admins` collection of dynamically
 * granted administrators layered over the static root-admin list from the
 * configuration, the `Files` collection keyed by link, and the two user-id
 * collections (`Users` and the legacy `users`).
 *
 * Collections are values held in the fields of a `MongoDB` object; each
 * database call is one method that reassigns the field it writes. Where
 * Mongo picks an unspecified one of several matching documents
 * (`find_one`, `delete_one` without a sort), the model picks the first in
 * store order.
 */
module Database {
  import opened Wrappers

  /** The soft-disable flag stored with every channel record. */
  datatype ChatStatus = ChatStatus(isDisabled: bool, reason: string)

  /** A document of the `groups` collection. */
  datatype Group = Group(id: int, title: string, chatStatus: ChatStatus)

  /** A document of the `admins` collection; `addedOn` is the clock reading at the grant. */
  datatype AdminRecord = AdminRecord(id: int, addedOn: int)

  /** One entry of the `files` list of a `Files` document (a JSON object). */
  type FileData = map<string, string>

  /** A document of the `Files` collection, keyed by its link. */
  datatype FileDoc = FileDoc(fileOrigin: int, files: seq<FileData>)

  /** The record `new_group` builds: it reads back under its id as enabled, with an empty reason. */
  function NewGroup(id: int, title: string): (g: Group)
    ensures g.title == title && FindChat([g], id) == Some(ChatStatus(false, ""))
  {
    Group(id, title, ChatStatus(false, ""))
  }

  /** The record `new_admin` builds. */
  function NewAdmin(adminId: int, now: int): AdminRecord {
    AdminRecord(adminId, now)
  }

  // ---------------------------------------------------------------------
  // The groups collection
  // ---------------------------------------------------------------------

  predicate HasChat(groups: seq<Group>, id: int) {
    exists i :: 0 <= i < |groups| && groups[i].id == id
  }

  /** `get_chat`: the status of the first record with the id, `None` (the source's `False`) when there is none. */
  function FindChat(groups: seq<Group>, id: int): (r: Option<ChatStatus>)
    ensures r.None? <==> !HasChat(groups, id)
    ensures r.Some? ==> exists i :: 0 <= i < |groups| && groups[i].id == id && groups[i].chatStatus == r.value
  {
    if groups == [] then None
    else if groups[0].id == id then Some(groups[0].chatStatus)
    else
      var r := FindChat(groups[1..], id);
      assert forall i :: 1 <= i < |groups| ==> groups[i] == groups[1..][i - 1];
      r
  }

  /** `delete_chat`: every record with the id goes, the others stay in order. */
  function WithoutChat(groups: seq<Group>, id: int): (r: seq<Group>)
    ensures |r| <= |groups|
    ensures forall j :: 0 <= j < |r| ==> r[j].id != id
  {
    if groups == [] then []
    else
      var rest := WithoutChat(groups[1..], id);
      if groups[0].id == id then rest else [groups[0]] + rest
  }

  /** `delete_chat` removes every copy of a record with the id and no other record. */
  lemma {:induction false} WithoutChatSpec(groups: seq<Group>, id: int, g: Group)
    ensures multiset(WithoutChat(groups, id))[g] == if g.id == id then 0 else multiset(groups)[g]
  {
    if groups != [] {
      WithoutChatSpec(groups[1..], id, g);
      assert groups == [groups[0]] + groups[1..];
    }
  }

  /** The store after `delete_chat` was called once for each id of `ids`, in turn. */
  function WithoutChats(groups: seq<Group>, ids: seq<int>): seq<Group> {
    if ids == [] then groups else WithoutChat(WithoutChats(groups, ids[..|ids| - 1]), ids[|ids| - 1])
  }

  /** Deleting one more id is one more `delete_chat` on the store so far. */
  lemma WithoutChatsSnoc(groups: seq<Group>, ids: seq<int>, id: int)
    ensures WithoutChats(groups, ids + [id]) == WithoutChat(WithoutChats(groups, ids), id)
  {
    assert (ids + [id])[..|ids|] == ids;
  }

  /** Deleting several ids removes exactly the records carrying one of them. */
  lemma {:induction false} WithoutChatsSpec(groups: seq<Group>, ids: seq<int>, g: Group)
    ensures multiset(WithoutChats(groups, ids))[g] == if g.id in ids then 0 else multiset(groups)[g]
  {
    if ids != [] {
      var front := ids[..|ids| - 1];
      WithoutChatsSpec(groups, front, g);
      WithoutChatSpec(WithoutChats(groups, front), ids[|ids| - 1], g);
      assert ids == front + [ids[|ids| - 1]];
    }
  }

  /** `add_chat` then `get_chat`: a new id reads back as enabled; a known id keeps its first record. */
  lemma {:induction false} AddedChatIsFound(groups: seq<Group>, id: int, title: string, other: int)
    ensures FindChat(groups + [NewGroup(id, title)], id) ==
              if HasChat(groups, id) then FindChat(groups, id) else Some(ChatStatus(false, ""))
    ensures other != id ==> FindChat(groups + [NewGroup(id, title)], other) == FindChat(groups, other)
  {
    if groups != [] {
      AddedChatIsFound(groups[1..], id, title, other);
      assert (groups + [NewGroup(id, title)])[1..] == groups[1..] + [NewGroup(id, title)];
    }
  }

  /** `delete_chat` then `get_chat`: the id is gone; every other id reads back as before. */
  lemma {:induction false} DeletedChatIsGone(groups: seq<Group>, id: int, other: int)
    ensures FindChat(WithoutChat(groups, id), id) == None
    ensures other != id ==> FindChat(WithoutChat(groups, id), other) == FindChat(groups, other)
  {
    if groups != [] {
      DeletedChatIsGone(groups[1..], id, other);
      var rest := WithoutChat(groups[1..], id);
      if groups[0].id != id {
        assert ([groups[0]] + rest)[1..] == rest;
      }
    }
  }

  lemma TailOfConcat(a: seq<Group>, b: seq<Group>)
    requires a != []
    ensures (a + b)[1..] == a[1..] + b
  {
    var l, r := (a + b)[1..], a[1..] + b;
    assert |l| == |r|;
    forall k | 0 <= k < |l| ensures l[k] == r[k] {
      if k < |a| - 1 {
        assert l[k] == a[k + 1];
      } else {
        assert l[k] == b[k + 1 - |a|];
      }
    }
  }

  /** Deleting distributes over concatenation, so the survivors keep their order. */
  lemma {:induction false} WithoutChatKeepsOrder(a: seq<Group>, b: seq<Group>, id: int)
    ensures WithoutChat(a + b, id) == WithoutChat(a, id) + WithoutChat(b, id)
  {
    if a != [] {
      var ab := a + b;
      assert ab[0] == a[0];
      TailOfConcat(a, b);
      WithoutChatKeepsOrder(a[1..], b, id);
      var ra, rb := WithoutChat(a[1..], id), WithoutChat(b, id);
      assert WithoutChat(ab[1..], id) == ra + rb;
      if a[0].id != id {
        assert WithoutChat(ab, id) == [a[0]] + (ra + rb);
        assert WithoutChat(a, id) == [a[0]] + ra;
        assert [a[0]] + (ra + rb) == ([a[0]] + ra) + rb;
      }
    } else {
      assert a + b == b;
    }
  }

  // ---------------------------------------------------------------------
  // The admins collection
  // ---------------------------------------------------------------------

  predicate HasAdmin(admins: seq<AdminRecord>, id: int) {
    exists i :: 0 <= i < |admins| && admins[i].id == id
  }

  function AdminIds(admins: seq<AdminRecord>): (r: seq<int>)
    ensures |r| == |admins|
    ensures forall i :: 0 <= i < |admins| ==> r[i] == admins[i].id
  {
    seq(|admins|, i requires 0 <= i < |admins| => admins[i].id)
  }

  predicate NoDup(s: seq<int>) {
    forall i, j :: 0 <= i < j < |s| ==> s[i] != s[j]
  }

  /** The index of the first record with the id. */
  function FirstAdminIndex(admins: seq<AdminRecord>, id: int): (k: nat)
    requires HasAdmin(admins, id)
    ensures k < |admins| && admins[k].id == id
    ensures forall j :: 0 <= j < k ==> admins[j].id != id
  {
    if admins[0].id == id then 0
    else
      assert HasAdmin(admins[1..], id) by {
        var i :| 0 <= i < |admins| && admins[i].id == id;
        assert admins[1..][i - 1] == admins[i];
      }
      1 + FirstAdminIndex(admins[1..], id)
  }

  /** `remove_admin`'s deletion: the first record with the id goes, if there is one. */
  function RemoveFirstAdmin(admins: seq<AdminRecord>, id: int): (r: seq<AdminRecord>)
    ensures |r| == if HasAdmin(admins, id) then |admins| - 1 else |admins|
  {
    if HasAdmin(admins, id) then
      var k := FirstAdminIndex(admins, id);
      admins[..k] + admins[k + 1..]
    else admins
  }

  /**
   * `list(set(ids))`: each id once. The source's order is that of a Python
   * set; this one keeps first occurrences.
   */
  function Dedup(s: seq<int>): (r: seq<int>)
    ensures forall x :: x in r <==> x in s
    ensures NoDup(r)
  {
    if s == [] then []
    else
      var front := Dedup(s[..|s| - 1]);
      var x := s[|s| - 1];
      assert s == s[..|s| - 1] + [x];
      if x in front then front else front + [x]
  }

  /** A grant on an id that is not yet stored keeps the stored ids unique. */
  lemma GrantKeepsIdsUnique(admins: seq<AdminRecord>, id: int, now: int)
    requires NoDup(AdminIds(admins)) && !HasAdmin(admins, id)
    ensures NoDup(AdminIds(admins + [NewAdmin(id, now)]))
  {
    var ids := AdminIds(admins + [NewAdmin(id, now)]);
    forall i, j | 0 <= i < j < |ids| ensures ids[i] != ids[j] {
      if j == |admins| {
        assert ids[i] == admins[i].id;
      } else {
        assert ids[i] == AdminIds(admins)[i] && ids[j] == AdminIds(admins)[j];
      }
    }
  }

  /** A revoke takes away the dynamic grant of the id when the stored ids are unique. */
  lemma RevokeRemovesGrant(admins: seq<AdminRecord>, id: int)
    requires NoDup(AdminIds(admins))
    ensures !HasAdmin(RemoveFirstAdmin(admins, id), id)
  {
    var r := RemoveFirstAdmin(admins, id);
    if HasAdmin(admins, id) {
      var i := FirstAdminIndex(admins, id);
      forall k | 0 <= k < |r| ensures r[k].id != id {
        var ids := AdminIds(admins);
        if k < i {
          assert r[k] == admins[k] && ids[k] != ids[i];
        } else {
          assert r[k] == admins[k + 1] && ids[i] != ids[k + 1];
        }
      }
    }
  }

  /** A revoke keeps the stored ids unique. */
  lemma RevokeKeepsIdsUnique(admins: seq<AdminRecord>, id: int)
    requires NoDup(AdminIds(admins))
    ensures NoDup(AdminIds(RemoveFirstAdmin(admins, id)))
  {
    if HasAdmin(admins, id) {
      var i := FirstAdminIndex(admins, id);
      var r := RemoveFirstAdmin(admins, id);
      var ids, rids := AdminIds(admins), AdminIds(r);
      forall a, b | 0 <= a < b < |rids| ensures rids[a] != rids[b] {
        var a', b' := if a < i then a else a + 1, if b < i then b else b + 1;
        assert rids[a] == ids[a'] && rids[b] == ids[b'];
      }
    }
  }

  /** A revoke changes the dynamic status of no other id. */
  lemma RevokeKeepsOtherGrants(admins: seq<AdminRecord>, id: int, other: int)
    requires other != id
    ensures HasAdmin(RemoveFirstAdmin(admins, id), other) <==> HasAdmin(admins, other)
  {
    var r := RemoveFirstAdmin(admins, id);
    if HasAdmin(admins, id) {
      var i := FirstAdminIndex(admins, id);
      if HasAdmin(admins, other) {
        var j :| 0 <= j < |admins| && admins[j].id == other;
        if j < i {
          assert r[j] == admins[j];
        } else {
          assert r[j - 1] == admins[j];
        }
      }
      if HasAdmin(r, other) {
        var j :| 0 <= j < |r| && r[j].id == other;
        if j < i {
          assert r[j] == admins[j];
        } else {
          assert r[j] == admins[j + 1];
        }
      }
    }
  }

  /**
   * The bot's view of the database. `rootAdmins` is `config.ROOT_ADMINS_ID`,
   * fixed for the life of the process.
   */
  class MongoDB {
    const rootAdmins: seq<int>
    var groups: seq<Group>
    var admins: seq<AdminRecord>
    var files: map<string, FileDoc>
    var users: set<int>
    var codexUsers: set<int>

    constructor (rootAdmins: seq<int>)
      ensures this.rootAdmins == rootAdmins
      ensures groups == [] && admins == [] && files == map[] && users == {} && codexUsers == {}
      ensures Valid()
    {
      this.rootAdmins := rootAdmins;
      groups, admins, files, users, codexUsers := [], [], map[], {}, {};
    }

    /**
     * No id is granted twice in the store. The admin commands keep this, so
     * it holds of every store that started out satisfying it.
     */
    predicate Valid()
      reads this
    {
      NoDup(AdminIds(admins))
    }

    /** Whether `id` is an administrator: a root admin, or granted in the store. */
    predicate IsAdminIn(id: int)
      reads this
    {
      id in rootAdmins || HasAdmin(admins, id)
    }

    /** `add_user`: an upsert into `Users`; the acknowledgement is always given. */
    method AddUser(userId: int) returns (acknowledged: bool)
      modifies this`users
      ensures users == old(users) + {userId}
      ensures acknowledged
    {
      users := users + {userId};
      acknowledged := true;
    }

    /** `add_file`: an upsert of the document keyed by `fileLink`. */
    method AddFile(fileLink: string, fileOrigin: int, fileData: seq<FileData>) returns (acknowledged: bool)
      modifies this`files
      ensures files == old(files)[fileLink := FileDoc(fileOrigin, fileData)]
      ensures acknowledged
    {
      files := files[fileLink := FileDoc(fileOrigin, fileData)];
      acknowledged := true;
    }

    /** `delete_link_document`: true iff a document was there to delete. */
    method DeleteLinkDocument(fileLink: string) returns (deleted: bool)
      modifies this`files
      ensures deleted <==> fileLink in old(files)
      ensures files == old(files) - {fileLink}
    {
      deleted := fileLink in files;
      files := files - {fileLink};
    }

    /** `get_link_document`: the document keyed by the link, or `None`. */
    method GetLinkDocument(fileLink: string) returns (doc: Option<FileDoc>)
      ensures doc.None? <==> fileLink !in files
      ensures doc.Some? ==> doc.value == files[fileLink]
    {
      doc := if fileLink in files then Some(files[fileLink]) else None;
    }

    /** `get_user_ids`: the ids of both user collections. */
    method GetUserIds() returns (mainIds: set<int>, codexIds: set<int>)
      ensures mainIds == users && codexIds == codexUsers
    {
      mainIds, codexIds := users, codexUsers;
    }

    /** `stats`: the number of links and of users. */
    method Stats() returns (linkCount: nat, usersCount: nat)
      ensures linkCount == |files| && usersCount == |users|
    {
      linkCount, usersCount := |files|, |users|;
    }

    /** `cleanup_users`: drops the listed ids from each user collection. */
    method CleanupUsers(unsuccessfulIds: seq<int>, unsuccessfulIdsCodex: seq<int>)
      modifies this`users, this`codexUsers
      ensures users == old(users) - set x | x in unsuccessfulIds
      ensures codexUsers == old(codexUsers) - set x | x in unsuccessfulIdsCodex
    {
      if unsuccessfulIds != [] {
        users := users - set x | x in unsuccessfulIds;
      }
      if unsuccessfulIdsCodex != [] {
        codexUsers := codexUsers - set x | x in unsuccessfulIdsCodex;
      }
    }

    /** `add_chat`: always inserts one new record; nothing checks for an existing one. */
    method AddChat(chat: int, title: string)
      modifies this`groups
      ensures groups == old(groups) + [NewGroup(chat, title)]
      ensures |groups| == |old(groups)| + 1
    {
      groups := groups + [NewGroup(chat, title)];
    }

    /** `get_chat`: the status of a record with the id, `None` for `False`. */
    method GetChat(chat: int) returns (status: Option<ChatStatus>)
      ensures status.None? <==> !HasChat(groups, chat)
      ensures status == FindChat(groups, chat)
    {
      status := FindChat(groups, chat);
    }

    /** `delete_chat`: removes every record with the id. */
    method DeleteChat(chatId: int)
      modifies this`groups
      ensures groups == WithoutChat(old(groups), chatId)
      ensures !HasChat(groups, chatId)
    {
      groups := WithoutChat(groups, chatId);
      DeletedChatIsGone(old(groups), chatId, chatId);
    }

    /** `total_chat_count` */
    method TotalChatCount() returns (count: nat)
      ensures count == |groups|
    {
      count := |groups|;
    }

    /** `get_all_chats`: the records in store order. */
    method GetAllChats() returns (chats: seq<Group>)
      ensures chats == groups
    {
      chats := groups;
    }

    /**
     * `is_admin`: a root id answers true before the store is consulted;
     * otherwise the answer is whether a stored record has the id.
     */
    method IsAdmin(adminId: int) returns (isAdmin: bool, storeQueried: bool)
      ensures isAdmin <==> adminId in rootAdmins || HasAdmin(admins, adminId)
      ensures storeQueried <==> adminId !in rootAdmins
    {
      if adminId in rootAdmins {
        return true, false;
      }
      storeQueried := true;
      isAdmin := exists i :: 0 <= i < |admins| && admins[i].id == adminId;
    }

    /**
     * `add_admin`: refuses any id that is already an admin, root ids
     * included; otherwise inserts one record, after which the id is an admin.
     */
    method AddAdmin(adminId: int, now: int) returns (added: bool)
      modifies this`admins
      ensures added <==> !old(IsAdminIn(adminId))
      ensures admins == if added then old(admins) + [NewAdmin(adminId, now)] else old(admins)
      ensures IsAdminIn(adminId)
      ensures old(Valid()) ==> Valid()
    {
      var already, _ := IsAdmin(adminId);
      if !already {
        if Valid() {
          GrantKeepsIdsUnique(admins, adminId, now);
        }
        admins := admins + [NewAdmin(adminId, now)];
        assert admins[|admins| - 1].id == adminId;
        return true;
      }
      return false;
    }

    /** `remove_admin`: deletes at most one record; true iff one was deleted. */
    method RemoveAdmin(adminId: int) returns (removed: bool)
      modifies this`admins
      ensures removed <==> HasAdmin(old(admins), adminId)
      ensures admins == RemoveFirstAdmin(old(admins), adminId)
      ensures adminId in rootAdmins ==> IsAdminIn(adminId)
      ensures old(Valid()) ==> Valid() && (adminId !in rootAdmins ==> !IsAdminIn(adminId))
    {
      removed := exists i :: 0 <= i < |admins| && admins[i].id == adminId;
      if Valid() {
        RevokeKeepsIdsUnique(admins, adminId);
        RevokeRemovesGrant(admins, adminId);
      }
      admins := RemoveFirstAdmin(admins, adminId);
    }

    /** `get_all_admins`: the stored and the root ids, each exactly once. */
    method GetAllAdmins() returns (all: seq<int>)
      ensures forall x :: x in all <==> IsAdminIn(x)
      ensures NoDup(all)
    {
      var dbAdmins := AdminIds(admins);
      all := Dedup(dbAdmins + rootAdmins);
      forall x ensures x in all <==> IsAdminIn(x) {
        if HasAdmin(admins, x) {
          var i :| 0 <= i < |admins| && admins[i].id == x;
          assert dbAdmins[i] == x;
        }
      }
    }
  }

  /**
   * The grant scenario: granting a non-root id twice answers true, then
   * false, and the admin list holds the id once.
   */
  method GrantTwice(rootAdmins: seq<int>, id: int, now: int) returns (first: bool, second: bool, all: seq<int>)
    requires id !in rootAdmins
    ensures first && !second
    ensures multiset(all)[id] == 1
  {
    var db := new MongoDB(rootAdmins);
    first := db.AddAdmin(id, now);
    second := db.AddAdmin(id, now);
    all := db.GetAllAdmins();
    assert id in all;
    var k :| 0 <= k < |all| && all[k] == id;
    assert all == all[..k] + [id] + all[k + 1..];
    assert id !in all[..k] && id !in all[k + 1..];
  }

  /**
   * A stored file document reads back as written, and after its deletion
   * the link is unknown again.
   */
  method FileLifecycle(db: MongoDB, fileLink: string, fileOrigin: int, fileData: seq<FileData>)
    returns (stored: Option<FileDoc>, deleted: bool, after: Option<FileDoc>)
    modifies db`files
    ensures stored == Some(FileDoc(fileOrigin, fileData))
    ensures deleted && after == None && fileLink !in db.files
  {
    var _ := db.AddFile(fileLink, fileOrigin, fileData);
    stored := db.GetLinkDocument(fileLink);
    deleted := db.DeleteLinkDocument(fileLink);
    after := db.GetLinkDocument(fileLink);
  }
}
