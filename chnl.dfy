/**
 * The chat-lifecycle handlers (bot/plugins/filter/chnl.py): registering a
 * channel when the bot is added to it, `/leave`, and `/groups`, which lists
 * the stored channels and deletes those Telegram reports as private.
 *
 * Telegram's answers come in as oracle values; the store is the `MongoDB`
 * object of the Database module.
 */
module Chnl {
  import opened Wrappers
  import opened PyStr
  import opened Database

  // ---------------------------------------------------------------------
  // handle_new_chat
  // ---------------------------------------------------------------------

  /** Link text used when the export returns a falsy result. */
  const NO_LINK: string := "No link available"

  /** Link text used when the export raises an `RPCError`. */
  const LINK_FAILED: string := "Failed to generate invite link."

  /**
   * How `ExportChatInvite` ends: with a result (`None` when it is falsy),
   * with an `RPCError`, or with any other exception.
   */
  datatype ExportOutcome = Exported(result: Option<string>) | ExportRpcError | ExportOtherError

  /**
   * Telegram's behaviour during one registration: the member count
   * (`None` when the call raises), the export, and whether the alert to
   * the log channel is delivered.
   */
  datatype NewChatProbe = NewChatProbe(membersCount: Option<int>, invite: ExportOutcome, alertSent: bool)

  /**
   * How the handler ends: the update is not about the bot joining a new
   * supergroup or channel; the chat is registered and announced with the
   * given link text; or an exception was reported to the log channel.
   */
  datatype NewChatOutcome = Ignored | Registered(link: string) | ReportedError

  /** `str(chat_id).startswith("-100")`: the id of a supergroup or channel. */
  predicate SupergroupId(chatId: int) {
    IsPrefix("-100", IntToString(chatId))
  }

  /** The link text of the alert, or `None` when the export raised something other than an `RPCError`. */
  function AlertLink(invite: ExportOutcome): (r: Option<string>)
    ensures r.None? <==> invite == ExportOtherError
    ensures invite.Exported? && invite.result.Some? ==> r == invite.result
  {
    match invite
    case Exported(result) => if result.Some? then result else Some(NO_LINK)
    case ExportRpcError => Some(LINK_FAILED)
    case ExportOtherError => None
  }

  /** The outcome of `handle_new_chat` on a store holding `groups`. */
  function NewChatStep(groups: seq<Group>, botId: int, newMember: Option<int>, chatId: int, probe: NewChatProbe): (r: NewChatOutcome)
    ensures r.Registered? <==>
              newMember == Some(botId) && SupergroupId(chatId) && !HasChat(groups, chatId) &&
              probe.membersCount.Some? && AlertLink(probe.invite).Some? && probe.alertSent
    ensures r.Registered? ==> r.link == AlertLink(probe.invite).value
    ensures r.Ignored? <==> newMember != Some(botId) || !SupergroupId(chatId) || HasChat(groups, chatId)
  {
    if newMember != Some(botId) then Ignored
    else if !SupergroupId(chatId) || FindChat(groups, chatId).Some? then Ignored
    else if probe.membersCount.None? then ReportedError
    else match AlertLink(probe.invite)
      case None => ReportedError
      case Some(link) => if probe.alertSent then Registered(link) else ReportedError
  }

  /** Only a supergroup or channel id, which is at most -100, is ever registered. */
  lemma RegisteredIdIsNegative(groups: seq<Group>, botId: int, newMember: Option<int>, chatId: int, probe: NewChatProbe)
    requires NewChatStep(groups, botId, newMember, chatId, probe).Registered?
    ensures chatId <= -100
  {
    SupergroupPrefixIsNegative(chatId);
  }

  /** A failed export does not block registration: a placeholder link text is announced. */
  lemma ExportFailureStillRegisters(groups: seq<Group>, botId: int, chatId: int, count: int, invite: ExportOutcome)
    requires SupergroupId(chatId) && !HasChat(groups, chatId)
    requires invite == ExportRpcError || invite == Exported(None)
    ensures NewChatStep(groups, botId, Some(botId), chatId, NewChatProbe(Some(count), invite, true)) ==
            Registered(if invite == ExportRpcError then LINK_FAILED else NO_LINK)
  {
  }

  /** Ids of stored chats are pairwise distinct. */
  predicate UniqueChatIds(groups: seq<Group>) {
    forall i, j :: 0 <= i < j < |groups| ==> groups[i].id != groups[j].id
  }

  /**
   * Registration is idempotent: the same update delivered again after a
   * registration is ignored, so the handler never stores a chat twice.
   */
  lemma RegistrationIsIdempotent(groups: seq<Group>, botId: int, chatId: int, title: string, probe: NewChatProbe, probe2: NewChatProbe)
    requires NewChatStep(groups, botId, Some(botId), chatId, probe).Registered?
    ensures NewChatStep(groups + [NewGroup(chatId, title)], botId, Some(botId), chatId, probe2) == Ignored
  {
    AddedChatIsFound(groups, chatId, title, chatId);
  }

  /** A registration keeps stored ids unique. */
  lemma RegistrationKeepsIdsUnique(groups: seq<Group>, botId: int, newMember: Option<int>, chatId: int, title: string, probe: NewChatProbe)
    requires UniqueChatIds(groups)
    requires NewChatStep(groups, botId, newMember, chatId, probe).Registered?
    ensures UniqueChatIds(groups + [NewGroup(chatId, title)])
  {
    var after := groups + [NewGroup(chatId, title)];
    forall i, j | 0 <= i < j < |after| ensures after[i].id != after[j].id {
      if j == |groups| {
        assert after[i] == groups[i];
      } else {
        assert after[i] == groups[i] && after[j] == groups[j];
      }
    }
  }

  /**
   * `handle_new_chat`: when the bot itself joined a supergroup or channel
   * that is not stored yet, the member count is fetched, an invite link is
   * exported, the alert is sent and then the chat is stored.
   */
  method HandleNewChat(db: MongoDB, botId: int, newMember: Option<int>, chatId: int, title: string, probe: NewChatProbe)
    returns (outcome: NewChatOutcome)
    modifies db`groups
    ensures outcome == NewChatStep(old(db.groups), botId, newMember, chatId, probe)
    ensures db.groups == if outcome.Registered? then old(db.groups) + [NewGroup(chatId, title)] else old(db.groups)
  {
    if newMember != Some(botId) {
      return Ignored;
    }
    if !IsPrefix("-100", IntToString(chatId)) {
      return Ignored;
    }
    var status := db.GetChat(chatId);
    if status.Some? {
      return Ignored;
    }
    if probe.membersCount.None? {
      return ReportedError;
    }
    var link: string;
    match probe.invite {
      case Exported(result) =>
        link := if result.Some? then result.value else NO_LINK;
      case ExportRpcError =>
        link := LINK_FAILED;
      case ExportOtherError =>
        return ReportedError;
    }
    if !probe.alertSent {
      return ReportedError;
    }
    db.AddChat(chatId, title);
    outcome := Registered(link);
  }

  // ---------------------------------------------------------------------
  // leave_a_chat
  // ---------------------------------------------------------------------

  /** The reason sent when none is given. */
  const DEFAULT_REASON: string := "ɴᴏ ʀᴇᴀꜱᴏɴ ᴘʀᴏᴠɪᴅᴇᴅ..."

  /** The chat argument: an integer when `int()` accepts it, the text otherwise. */
  datatype ChatRef = ById(id: int) | ByName(name: string)

  /**
   * The parsed `/leave` command: the usage reply, the chat and the reason,
   * or a text without any word (the `IndexError` of `message.command[1]`).
   */
  datatype LeaveRequest = LeaveUsage | LeaveArgs(chat: ChatRef, reason: string) | LeaveMalformed

  /** The chat argument of `/leave`: what `int()` makes of it, or the text itself when `int()` raises. */
  function ChatArgument(arg: string): (r: ChatRef)
    ensures r.ById? <==> ParseInt(arg).Some?
    ensures r.ById? ==> ParseInt(arg) == Some(r.id)
  {
    match ParseInt(arg)
    case Some(n) => ById(n)
    case None => ByName(arg)
  }

  /**
   * `leave_a_chat`'s argument handling: with more than two words the
   * second is the chat and everything after it is the reason; with two the
   * reason is the default.
   */
  function ParseLeave(text: string): (r: LeaveRequest)
    ensures r == LeaveMalformed <==> Split(text) == []
  {
    var words := Split(text);
    if |words| == 1 then LeaveUsage
    else if |words| > 2 then
      SplitMaxAgrees(text, 2);
      var parts := SplitMax(text, 2);
      LeaveArgs(ChatArgument(parts[1]), parts[2])
    else if |words| == 2 then LeaveArgs(ChatArgument(words[1]), DEFAULT_REASON)
    else LeaveMalformed
  }

  /**
   * The chat is always the second word, and a command of two words gets
   * the default reason.
   */
  lemma LeaveChatIsSecondWord(text: string)
    ensures ParseLeave(text).LeaveArgs? <==> |Split(text)| >= 2
    ensures ParseLeave(text).LeaveArgs? ==> ParseLeave(text).chat == ChatArgument(Split(text)[1])
    ensures |Split(text)| == 2 ==> ParseLeave(text) == LeaveArgs(ChatArgument(Split(text)[1]), DEFAULT_REASON)
    ensures ParseLeave(text) == LeaveUsage <==> |Split(text)| == 1
  {
    SplitMaxAgrees(text, 2);
  }

  /**
   * With more than two words the reason is the rest of the text after the
   * chat argument and its whitespace, exactly as typed, trailing whitespace
   * included.
   */
  lemma LeaveReasonIsRest(command: string, gap1: string, chat: string, gap2: string, reason: string)
    requires command != [] && NoSpace(command) && chat != [] && NoSpace(chat)
    requires gap1 != [] && forall i :: 0 <= i < |gap1| ==> IsSpace(gap1[i])
    requires gap2 != [] && forall i :: 0 <= i < |gap2| ==> IsSpace(gap2[i])
    requires reason != [] && !IsSpace(reason[0])
    ensures ParseLeave(command + gap1 + chat + gap2 + reason) == LeaveArgs(ChatArgument(chat), reason)
  {
    var tail := chat + gap2 + reason;
    var text := command + gap1 + tail;
    assert command + gap1 + chat + gap2 + reason == text;
    assert tail[0] == chat[0];
    SplitMaxAfterWord(command, gap1, tail, 2);
    SplitMaxAfterWord(chat, gap2, reason, 1);
    assert SplitMax(reason, 0) == [reason] by {
      assert LStrip(reason) == reason;
    }
    assert SplitMax(text, 2) == [command, chat, reason];
    SplitMaxAgrees(text, 2);
  }

  /** An id written out by `str` comes back as that id; any other argument stays text. */
  lemma ChatArgumentRoundTrip(n: int, arg: string)
    ensures ChatArgument(IntToString(n)) == ById(n)
    ensures ChatArgument(arg).ByName? <==> ParseInt(arg).None?
    ensures ChatArgument(arg).ByName? ==> ChatArgument(arg).name == arg
  {
    ParseIntRoundTrip(n);
  }

  /** Telegram's behaviour during `/leave`: whether the farewell is delivered and the leave succeeds. */
  datatype LeaveProbe = LeaveProbe(sendOk: bool, leaveOk: bool)

  /**
   * The reply to `/leave`: usage, success, the error reply, or none at all
   * (the handler raised before replying).
   */
  datatype LeaveReply = Usage | LeftChat(chat: ChatRef) | LeaveError | NoReply

  /**
   * `leave_a_chat`: the farewell is sent, the bot leaves, and then the
   * record is deleted. `delete_chat` converts its argument with `int()`, so
   * a chat given by name ends in the error reply after the bot has left,
   * with the store unchanged.
   */
  method LeaveAChat(db: MongoDB, text: string, probe: LeaveProbe) returns (reply: LeaveReply, sent: bool, left: bool)
    modifies db`groups
    ensures ParseLeave(text) == LeaveUsage ==> reply == Usage && !sent && !left
    ensures ParseLeave(text) == LeaveMalformed ==> reply == NoReply && !sent && !left
    ensures ParseLeave(text).LeaveArgs? ==> sent && (left <==> probe.sendOk)
    ensures reply.LeftChat? <==>
              ParseLeave(text).LeaveArgs? && ParseLeave(text).chat.ById? && probe.sendOk && probe.leaveOk
    ensures reply.LeftChat? ==> reply.chat == ParseLeave(text).chat &&
                                db.groups == WithoutChat(old(db.groups), reply.chat.id)
    ensures !reply.LeftChat? ==> db.groups == old(db.groups)
    ensures ParseLeave(text).LeaveArgs? && !reply.LeftChat? ==> reply == LeaveError
  {
    var request := ParseLeave(text);
    match request {
      case LeaveUsage =>
        return Usage, false, false;
      case LeaveMalformed =>
        return NoReply, false, false;
      case LeaveArgs(chat, reason) =>
        sent := true;
        if !probe.sendOk {
          return LeaveError, sent, false;
        }
        left := true;
        if !probe.leaveOk {
          return LeaveError, sent, left;
        }
        match chat {
          case ById(id) =>
            db.DeleteChat(id);
            reply := LeftChat(chat);
          case ByName(_) =>
            reply := LeaveError;
        }
    }
  }

  // ---------------------------------------------------------------------
  // groups_list
  // ---------------------------------------------------------------------

  /** What `bot.get_chat` answers for one stored record. */
  datatype MembersLookup = ChatInfo(membersCount: Option<int>) | ChannelPrivate | OtherError

  /** The member count as shown: a falsy count (missing or zero) is "Unknown". */
  datatype Members = Known(count: int) | Unknown

  /** One numbered entry of the list. */
  datatype GroupLine = GroupLine(number: nat, title: string, id: int, members: Members)

  datatype GroupsReply = GroupsFound(lines: seq<GroupLine>) | NoGroupsFound

  /** The entries listed so far and the ids deleted so far. */
  datatype ListState = ListState(lines: seq<GroupLine>, healed: seq<int>)

  function ShownMembers(count: Option<int>): (m: Members)
    ensures m.Known? <==> count.Some? && count.value != 0
    ensures m.Known? ==> m.count == count.value
  {
    if count.Some? && count.value != 0 then Known(count.value) else Unknown
  }

  /**
   * One iteration of the loop of `groups_list`: an answered lookup appends
   * one entry for the record; a private channel marks the record for
   * deletion.
   */
  function ListStep(st: ListState, g: Group, lookup: MembersLookup): (r: ListState)
    ensures st.lines <= r.lines && |r.lines| == |st.lines| + (if lookup.ChatInfo? then 1 else 0)
    ensures r.healed == if lookup == ChannelPrivate then st.healed + [g.id] else st.healed
  {
    match lookup
    case ChatInfo(count) => st.(lines := st.lines + [GroupLine(|st.lines| + 1, g.title, g.id, ShownMembers(count))])
    case ChannelPrivate => st.(healed := st.healed + [g.id])
    case OtherError => st
  }

  /** The loop's state after the first `k` records: at most one entry and one deletion per record. */
  function ListUpTo(records: seq<Group>, lookups: seq<MembersLookup>, k: nat): (r: ListState)
    requires k <= |records| && k <= |lookups|
    ensures |r.lines| <= k && |r.healed| <= k
  {
    if k == 0 then ListState([], [])
    else ListStep(ListUpTo(records, lookups, k - 1), records[k - 1], lookups[k - 1])
  }

  /** The number of records whose lookup answered, among the first `k`. */
  function Answered(lookups: seq<MembersLookup>, k: nat): nat
    requires k <= |lookups|
  {
    if k == 0 then 0 else Answered(lookups, k - 1) + (if lookups[k - 1].ChatInfo? then 1 else 0)
  }

  /** There is one entry per record whose lookup answered. */
  lemma {:induction false} LineCountIsAnswered(records: seq<Group>, lookups: seq<MembersLookup>, k: nat)
    requires k <= |records| && k <= |lookups|
    ensures |ListUpTo(records, lookups, k).lines| == Answered(lookups, k)
  {
    if k > 0 {
      LineCountIsAnswered(records, lookups, k - 1);
    }
  }

  /**
   * Entries are numbered 1, 2, … without gaps, one per record whose lookup
   * answered, and each shows the stored title and id of such a record.
   */
  lemma {:induction false} LinesNumberedConsecutively(records: seq<Group>, lookups: seq<MembersLookup>, k: nat)
    requires k <= |records| && k <= |lookups|
    ensures |ListUpTo(records, lookups, k).lines| == Answered(lookups, k)
    ensures forall j :: 0 <= j < |ListUpTo(records, lookups, k).lines| ==> ListUpTo(records, lookups, k).lines[j].number == j + 1
    ensures forall j :: 0 <= j < |ListUpTo(records, lookups, k).lines| ==>
              exists i :: 0 <= i < k && lookups[i].ChatInfo? &&
                          ListUpTo(records, lookups, k).lines[j] ==
                          GroupLine(j + 1, records[i].title, records[i].id, ShownMembers(lookups[i].membersCount))
  {
    if k > 0 {
      LinesNumberedConsecutively(records, lookups, k - 1);
      var before := ListUpTo(records, lookups, k - 1).lines;
      var after := ListUpTo(records, lookups, k).lines;
      var answered := lookups[k - 1].ChatInfo?;
      assert !answered ==> after == before;
      assert answered ==> after == before + [GroupLine(|before| + 1, records[k - 1].title, records[k - 1].id,
                                                        ShownMembers(lookups[k - 1].membersCount))];
      forall j | 0 <= j < |after|
        ensures after[j].number == j + 1
        ensures exists i :: 0 <= i < k && lookups[i].ChatInfo? &&
                  after[j] == GroupLine(j + 1, records[i].title, records[i].id, ShownMembers(lookups[i].membersCount))
      {
        if j < |before| {
          assert after[j] == before[j];
          var i :| 0 <= i < k - 1 && lookups[i].ChatInfo? &&
                   before[j] == GroupLine(j + 1, records[i].title, records[i].id, ShownMembers(lookups[i].membersCount));
        } else {
          assert answered && 0 <= k - 1 < k;
        }
      }
    }
  }

  /**
   * Every record whose lookup answered has its own entry: the record at
   * position `i` gets the entry right after those of the answered records
   * before it, so entries follow store order.
   */
  lemma LinesFollowStoreOrder(records: seq<Group>, lookups: seq<MembersLookup>, k: nat)
    requires k <= |records| && k <= |lookups|
    ensures forall i :: 0 <= i < k && lookups[i].ChatInfo? ==>
              Answered(lookups, i) < |ListUpTo(records, lookups, k).lines| &&
              ListUpTo(records, lookups, k).lines[Answered(lookups, i)] ==
              GroupLine(Answered(lookups, i) + 1, records[i].title, records[i].id, ShownMembers(lookups[i].membersCount))
  {
    forall i | 0 <= i < k && lookups[i].ChatInfo? {
      LineOfAnswered(records, lookups, i, k);
    }
  }

  /** The entry of the answered record `i`, in every later state. */
  lemma LineOfAnswered(records: seq<Group>, lookups: seq<MembersLookup>, i: nat, k: nat)
    requires i < k <= |records| && k <= |lookups|
    requires lookups[i].ChatInfo?
    ensures Answered(lookups, i) < |ListUpTo(records, lookups, k).lines|
    ensures ListUpTo(records, lookups, k).lines[Answered(lookups, i)] ==
            GroupLine(Answered(lookups, i) + 1, records[i].title, records[i].id, ShownMembers(lookups[i].membersCount))
  {
    LineCountIsAnswered(records, lookups, i);
    var line := GroupLine(Answered(lookups, i) + 1, records[i].title, records[i].id, ShownMembers(lookups[i].membersCount));
    var before := ListUpTo(records, lookups, i).lines;
    var mid := ListUpTo(records, lookups, i + 1).lines;
    assert mid == before + [line];
    LinesGrowInOrder(records, lookups, i + 1, k);
    PrefixAgrees(mid, ListUpTo(records, lookups, k).lines, |before|);
  }

  /** Entries only ever grow at the end. */
  lemma {:induction false} LinesGrowInOrder(records: seq<Group>, lookups: seq<MembersLookup>, j: nat, k: nat)
    requires j <= k <= |records| && k <= |lookups|
    ensures ListUpTo(records, lookups, j).lines <= ListUpTo(records, lookups, k).lines
  {
    if j < k {
      LinesGrowInOrder(records, lookups, j, k - 1);
    }
  }

  /** A record is deleted exactly when its lookup reported `ChannelPrivate`; any other error keeps it. */
  lemma {:induction false} ListHealedExactly(records: seq<Group>, lookups: seq<MembersLookup>, k: nat, x: int)
    requires k <= |records| && k <= |lookups|
    ensures x in ListUpTo(records, lookups, k).healed <==>
            exists i :: 0 <= i < k && records[i].id == x && lookups[i] == ChannelPrivate
  {
    if k > 0 {
      ListHealedExactly(records, lookups, k - 1, x);
    }
  }

  /** "No groups found" is the reply exactly when no lookup answered. */
  lemma {:induction false} NothingListedIffNoAnswer(lookups: seq<MembersLookup>, k: nat)
    requires k <= |lookups|
    ensures Answered(lookups, k) == 0 <==> forall i :: 0 <= i < k ==> !lookups[i].ChatInfo?
  {
    if k > 0 {
      NothingListedIffNoAnswer(lookups, k - 1);
    }
  }

  /**
   * `groups_list`: walks the stored records in order, counting and listing
   * those Telegram answers for and deleting those it reports private.
   */
  method GroupsList(db: MongoDB, lookups: seq<MembersLookup>) returns (reply: GroupsReply)
    requires |lookups| == |db.groups|
    modifies db`groups
    ensures var st := ListUpTo(old(db.groups), lookups, |lookups|);
            reply == (if st.lines == [] then NoGroupsFound else GroupsFound(st.lines)) &&
            db.groups == WithoutChats(old(db.groups), st.healed)
  {
    var chats := db.GetAllChats();
    var lines: seq<GroupLine> := [];
    ghost var healed: seq<int> := [];
    var count := 1;
    var i := 0;
    while i < |chats|
      invariant 0 <= i <= |chats|
      invariant ListUpTo(chats, lookups, i) == ListState(lines, healed)
      invariant count == |lines| + 1
      invariant db.groups == WithoutChats(chats, healed)
    {
      var chat := chats[i];
      match lookups[i] {
        case ChatInfo(membersCount) =>
          lines := lines + [GroupLine(count, chat.title, chat.id, ShownMembers(membersCount))];
          count := count + 1;
        case ChannelPrivate =>
          db.DeleteChat(chat.id);
          assert (healed + [chat.id])[..|healed|] == healed;
          healed := healed + [chat.id];
        case OtherError =>
      }
      i := i + 1;
    }
    if count > 1 {
      reply := GroupsFound(lines);
    } else {
      reply := NoGroupsFound;
    }
  }
}
