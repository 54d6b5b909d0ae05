/**
 * The admin filter (bot/utilities/pyrofilters/admins.py): a message passes
 * when its sender is an administrator, or when the bot runs in global mode
 * and the filter was built with `allow_global`.
 */
module PyroFilters {
  import opened Database

  /** An admin always passes; anyone else only while global mode is on and the filter allows it. */
  function Admits(isAdmin: bool, globalMode: bool, allowGlobal: bool): (pass: bool)
    ensures isAdmin ==> pass
    ensures !isAdmin ==> (pass <==> globalMode && allowGlobal)
  {
    isAdmin || (globalMode && allowGlobal)
  }

  /**
   * `AdminsFilter.admin(allow_global)` applied to a message from `userId`.
   * It only asks the store whether the user is an admin and changes nothing.
   */
  method AdminFilter(db: MongoDB, userId: int, globalMode: bool, allowGlobal: bool := false) returns (pass: bool)
    ensures pass == Admits(db.IsAdminIn(userId), globalMode, allowGlobal)
    ensures pass <==> db.IsAdminIn(userId) || (globalMode && allowGlobal)
  {
    var isAdmin, _ := db.IsAdmin(userId);
    pass := isAdmin || (globalMode && allowGlobal);
  }

  /** The filter as the admin commands build it, with `allow_global` left at its default. */
  method DefaultAdminFilter(db: MongoDB, userId: int, globalMode: bool) returns (pass: bool)
    ensures pass <==> db.IsAdminIn(userId)
  {
    pass := AdminFilter(db, userId, globalMode);
  }
}
