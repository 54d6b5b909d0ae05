/**
 * The admin-management commands (bot/plugins/filter/cmds.py):
 * `/add_admin`, `/remove_admin` and `/admin_list`. Root admins come from
 * the configuration and can be neither granted nor revoked through the bot.
 */
module Cmds {
  import opened Wrappers
  import opened PyStr
  import opened Database

  /**
   * The decision shared by `/add_admin` and `/remove_admin` before the
   * store is called: the usage reply, the invalid-id reply, the refusal of
   * a root id, or the store call for a parsed id.
   */
  datatype AdminCommand = CommandUsage | InvalidUserId | RootRefused(userId: int) | StoreCall(userId: int)

  /** The guards of both commands, on the command's words. */
  function ParseAdminCommand(text: string, rootAdmins: seq<int>): (c: AdminCommand)
    ensures c == CommandUsage <==> |Split(text)| < 2
    ensures c == InvalidUserId <==> |Split(text)| >= 2 && ParseInt(Split(text)[1]).None?
    ensures c.RootRefused? || c.StoreCall? ==>
              |Split(text)| >= 2 && ParseInt(Split(text)[1]) == Some(c.userId)
    ensures c.RootRefused? ==> c.userId in rootAdmins
    ensures c.StoreCall? ==> c.userId !in rootAdmins
  {
    var words := Split(text);
    if |words| < 2 then CommandUsage
    else match ParseInt(words[1])
      case None => InvalidUserId
      case Some(userId) => if userId in rootAdmins then RootRefused(userId) else StoreCall(userId)
  }

  /** A second word written by `str(n)` is read back as the id `n`. */
  lemma UserIdRoundTrip(text: string, rootAdmins: seq<int>, n: int)
    requires |Split(text)| >= 2 && Split(text)[1] == IntToString(n)
    ensures ParseAdminCommand(text, rootAdmins) == if n in rootAdmins then RootRefused(n) else StoreCall(n)
  {
    ParseIntRoundTrip(n);
  }

  datatype AddAdminReply =
    | AddUsage
    | AddInvalidId
    | AlreadyInConfig(userId: int)
    | AddedAdmin(userId: int)
    | AlreadyInDatabase(userId: int)

  /**
   * `/add_admin`: only a non-root id reaches the store; the reply then
   * follows the store's answer.
   */
  method AddAdminCommand(db: MongoDB, text: string, now: int) returns (reply: AddAdminReply)
    modifies db`admins
    ensures ParseAdminCommand(text, db.rootAdmins) == CommandUsage ==> reply == AddUsage
    ensures ParseAdminCommand(text, db.rootAdmins) == InvalidUserId ==> reply == AddInvalidId
    ensures ParseAdminCommand(text, db.rootAdmins).RootRefused? ==>
              reply == AlreadyInConfig(ParseAdminCommand(text, db.rootAdmins).userId)
    ensures !ParseAdminCommand(text, db.rootAdmins).StoreCall? ==> db.admins == old(db.admins)
    ensures ParseAdminCommand(text, db.rootAdmins).StoreCall? ==>
              var id := ParseAdminCommand(text, db.rootAdmins).userId;
              (reply == AddedAdmin(id) <==> !HasAdmin(old(db.admins), id)) &&
              (reply == AlreadyInDatabase(id) <==> HasAdmin(old(db.admins), id)) &&
              db.admins == (if reply.AddedAdmin? then old(db.admins) + [NewAdmin(id, now)] else old(db.admins)) &&
              db.IsAdminIn(id)
    ensures old(db.Valid()) ==> db.Valid()
  {
    match ParseAdminCommand(text, db.rootAdmins) {
      case CommandUsage => return AddUsage;
      case InvalidUserId => return AddInvalidId;
      case RootRefused(userId) => return AlreadyInConfig(userId);
      case StoreCall(userId) =>
        var success := db.AddAdmin(userId, now);
        reply := if success then AddedAdmin(userId) else AlreadyInDatabase(userId);
    }
  }

  datatype RemoveAdminReply =
    | RemoveUsage
    | RemoveInvalidId
    | CannotRemoveConfig(userId: int)
    | RemovedAdmin(userId: int)
    | NotInDatabase(userId: int)

  /**
   * `/remove_admin`: a root id is refused before the store is called;
   * otherwise the reply says whether a stored grant was deleted.
   */
  method RemoveAdminCommand(db: MongoDB, text: string) returns (reply: RemoveAdminReply)
    modifies db`admins
    ensures ParseAdminCommand(text, db.rootAdmins) == CommandUsage ==> reply == RemoveUsage
    ensures ParseAdminCommand(text, db.rootAdmins) == InvalidUserId ==> reply == RemoveInvalidId
    ensures ParseAdminCommand(text, db.rootAdmins).RootRefused? ==>
              reply == CannotRemoveConfig(ParseAdminCommand(text, db.rootAdmins).userId)
    ensures !ParseAdminCommand(text, db.rootAdmins).StoreCall? ==> db.admins == old(db.admins)
    ensures ParseAdminCommand(text, db.rootAdmins).StoreCall? ==>
              var id := ParseAdminCommand(text, db.rootAdmins).userId;
              (reply == RemovedAdmin(id) <==> HasAdmin(old(db.admins), id)) &&
              (reply == NotInDatabase(id) <==> !HasAdmin(old(db.admins), id)) &&
              db.admins == RemoveFirstAdmin(old(db.admins), id) &&
              (old(db.Valid()) ==> !db.IsAdminIn(id))
    ensures forall r :: r in db.rootAdmins ==> db.IsAdminIn(r)
    ensures old(db.Valid()) ==> db.Valid()
  {
    match ParseAdminCommand(text, db.rootAdmins) {
      case CommandUsage => return RemoveUsage;
      case InvalidUserId => return RemoveInvalidId;
      case RootRefused(userId) => return CannotRemoveConfig(userId);
      case StoreCall(userId) =>
        var success := db.RemoveAdmin(userId);
        reply := if success then RemovedAdmin(userId) else NotInDatabase(userId);
    }
  }

  /** One line of the database section: the id and its mention, `None` for "unknown user". */
  datatype DbAdminLine = DbAdminLine(number: nat, userId: int, mention: Option<string>)

  /** One line of the configuration section. */
  datatype ConfigAdminLine = ConfigAdminLine(number: nat, userId: int)

  datatype AdminListReply =
    | NoAdminsFound
    | AdminList(configAdmins: seq<ConfigAdminLine>, databaseAdmins: seq<DbAdminLine>)

  /** The listed admins that are not root admins, in list order. */
  function WithoutRoots(admins: seq<int>, rootAdmins: seq<int>): (r: seq<int>)
    ensures forall x :: x in r <==> x in admins && x !in rootAdmins
    ensures NoDup(admins) ==> NoDup(r)
  {
    if admins == [] then []
    else
      var rest := WithoutRoots(admins[1..], rootAdmins);
      assert forall x :: x in admins[1..] ==> x in admins;
      assert NoDup(admins) ==> admins[0] !in admins[1..] && NoDup(admins[1..]) by {
        if NoDup(admins) {
          forall k | 0 <= k < |admins[1..]| ensures admins[1..][k] != admins[0] {
            assert admins[1..][k] == admins[k + 1];
          }
        }
      }
      assert admins == [admins[0]] + admins[1..];
      if admins[0] in rootAdmins then rest else [admins[0]] + rest
  }

  /**
   * `/admin_list`: nothing but "no admins found" when there is no admin at
   * all; otherwise the root admins in configuration order, then the other
   * admins, each section numbered from 1. `mentions` holds the users
   * Telegram resolves.
   */
  method ListAdmins(db: MongoDB, mentions: map<int, string>) returns (reply: AdminListReply)
    ensures reply == NoAdminsFound <==> db.rootAdmins == [] && db.admins == []
    ensures reply.AdminList? ==>
              |reply.configAdmins| == |db.rootAdmins| &&
              forall j :: 0 <= j < |db.rootAdmins| ==> reply.configAdmins[j] == ConfigAdminLine(j + 1, db.rootAdmins[j])
    ensures reply.AdminList? ==>
              (forall x :: (exists j :: 0 <= j < |reply.databaseAdmins| && reply.databaseAdmins[j].userId == x) <==>
                             HasAdmin(db.admins, x) && x !in db.rootAdmins) &&
              (forall j, k :: 0 <= j < k < |reply.databaseAdmins| ==>
                                reply.databaseAdmins[j].userId != reply.databaseAdmins[k].userId)
    ensures reply.AdminList? ==>
              forall j :: 0 <= j < |reply.databaseAdmins| ==>
                reply.databaseAdmins[j].number == j + 1 &&
                reply.databaseAdmins[j].mention ==
                  (if reply.databaseAdmins[j].userId in mentions then Some(mentions[reply.databaseAdmins[j].userId]) else None)
  {
    var admins := db.GetAllAdmins();
    assert db.admins != [] ==> db.IsAdminIn(db.admins[0].id);
    assert db.rootAdmins != [] ==> db.IsAdminIn(db.rootAdmins[0]);
    assert admins != [] ==> db.IsAdminIn(admins[0]);
    if admins == [] {
      return NoAdminsFound;
    }
    var configAdmins: seq<ConfigAdminLine> := [];
    var idx := 0;
    while idx < |db.rootAdmins|
      invariant 0 <= idx <= |db.rootAdmins|
      invariant |configAdmins| == idx
      invariant forall j :: 0 <= j < idx ==> configAdmins[j] == ConfigAdminLine(j + 1, db.rootAdmins[j])
    {
      configAdmins := configAdmins + [ConfigAdminLine(idx + 1, db.rootAdmins[idx])];
      idx := idx + 1;
    }
    var dbAdmins := WithoutRoots(admins, db.rootAdmins);
    var lines: seq<DbAdminLine> := [];
    idx := 0;
    while idx < |dbAdmins|
      invariant 0 <= idx <= |dbAdmins|
      invariant |lines| == idx
      invariant forall j :: 0 <= j < idx ==>
                  lines[j] == DbAdminLine(j + 1, dbAdmins[j], if dbAdmins[j] in mentions then Some(mentions[dbAdmins[j]]) else None)
    {
      var adminId := dbAdmins[idx];
      var mention := if adminId in mentions then Some(mentions[adminId]) else None;
      lines := lines + [DbAdminLine(idx + 1, adminId, mention)];
      idx := idx + 1;
    }
    forall x ensures (exists j :: 0 <= j < |lines| && lines[j].userId == x) <==> HasAdmin(db.admins, x) && x !in db.rootAdmins {
      if x in dbAdmins {
        var j :| 0 <= j < |dbAdmins| && dbAdmins[j] == x;
        assert lines[j].userId == x;
      }
    }
    reply := AdminList(configAdmins, lines);
  }
}
