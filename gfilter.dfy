/**
 * The `/channel` search (bot/plugins/filter/gfilter.py): a process-wide
 * cache of invite links with a one-hour lifetime, and a search over the
 * stored channels that matches live titles, fetches a link for each hit and
 * deletes records whose channel has become unreachable.
 *
 * Telegram's answers are oracle values: a `LinkProbe` says how the revoke
 * and the export of an invite link go, a `ChannelProbe` says what the
 * lookup of one stored record returns. The calls the bot makes are
 * recorded as `Call` values so that their order and number can be stated.
 */
module GFilter {
  import opened Wrappers
  import opened PyStr
  import opened Database

  /** Lifetime of a cached invite link, in seconds. */
  const CACHE_DURATION: int := 3600

  /** One value of `channel_cache`. */
  datatype CacheEntry = CacheEntry(link: string, timestamp: int)

  /**
   * How `ExportChatInvite` ends: with a result whose `link` is the given
   * text (empty when the result or its link is falsy), with
   * `ChatAdminRequired`, or with any other exception.
   */
  datatype IssueOutcome = Issued(link: string) | AdminRequired | IssueFailed

  /** Telegram's behaviour for one call of `get_invite_link`. */
  datatype LinkProbe = LinkProbe(revokeOk: bool, issue: IssueOutcome)

  /** The external effects of `get_invite_link`, in the order they happen. */
  datatype Call =
    | Revoke(chatId: int, link: string)
    | Export(chatId: int)
    | ReportAdminRequired(chatId: int)

  /** The answer of `get_invite_link`, the cache after it, and the calls it made. */
  datatype LinkStep = LinkStep(link: Option<string>, cache: map<int, CacheEntry>, calls: seq<Call>)

  /** Every cached link is non-empty. */
  predicate LinksNonEmpty(cache: map<int, CacheEntry>) {
    forall k :: k in cache ==> cache[k].link != []
  }

  /** The cached entry for `chatId` is younger than `CACHE_DURATION` at `now`. */
  predicate Fresh(cache: map<int, CacheEntry>, chatId: int, now: int) {
    chatId in cache && now - cache[chatId].timestamp < CACHE_DURATION
  }

  /**
   * `get_invite_link(bot, chat_id)` at clock reading `now`. A fresh entry
   * answers at once. Otherwise an existing entry's link is revoked (the
   * outcome of the revoke is ignored) and a new link is exported; only a
   * non-empty exported link is cached, stamped with `now`.
   */
  function InviteStep(cache: map<int, CacheEntry>, chatId: int, now: int, probe: LinkProbe): (r: LinkStep)
    ensures r.calls == [] <==> Fresh(cache, chatId, now)
    ensures Fresh(cache, chatId, now) ==> r.link == Some(cache[chatId].link) && r.cache == cache
    ensures !Fresh(cache, chatId, now) ==>
              Export(chatId) in r.calls &&
              (r.link.Some? <==> probe.issue.Issued? && probe.issue.link != [])
    ensures !Fresh(cache, chatId, now) ==>
              r.link == if probe.issue.Issued? && probe.issue.link != [] then Some(probe.issue.link) else None
    ensures !Fresh(cache, chatId, now) ==>
              r.calls == (if chatId in cache then [Revoke(chatId, cache[chatId].link)] else []) + [Export(chatId)] +
                         (if probe.issue.AdminRequired? then [ReportAdminRequired(chatId)] else [])
    ensures r.link.None? ==> r.cache == cache
    ensures !Fresh(cache, chatId, now) && r.link.Some? ==>
              r.cache == cache[chatId := CacheEntry(r.link.value, now)]
    ensures forall k :: k != chatId ==> (k in r.cache <==> k in cache)
    ensures forall k :: k != chatId && k in cache ==> r.cache[k] == cache[k]
    ensures LinksNonEmpty(cache) ==> LinksNonEmpty(r.cache) && (r.link.Some? ==> r.link.value != [])
  {
    if Fresh(cache, chatId, now) then LinkStep(Some(cache[chatId].link), cache, [])
    else
      var revoke := if chatId in cache then [Revoke(chatId, cache[chatId].link)] else [];
      var calls := revoke + [Export(chatId)];
      match probe.issue
      case Issued(link) =>
        if link != [] then LinkStep(Some(link), cache[chatId := CacheEntry(link, now)], calls)
        else LinkStep(None, cache, calls)
      case AdminRequired => LinkStep(None, cache, calls + [ReportAdminRequired(chatId)])
      case IssueFailed => LinkStep(None, cache, calls)
  }

  /** An expired entry's link is revoked first, and the export comes right after. */
  lemma RevokeBeforeExport(cache: map<int, CacheEntry>, chatId: int, now: int, probe: LinkProbe)
    requires chatId in cache && !Fresh(cache, chatId, now)
    ensures |InviteStep(cache, chatId, now, probe).calls| >= 2
    ensures InviteStep(cache, chatId, now, probe).calls[0] == Revoke(chatId, cache[chatId].link)
    ensures InviteStep(cache, chatId, now, probe).calls[1] == Export(chatId)
  {
  }

  /** The freshness test is strict: an entry exactly `CACHE_DURATION` old is re-issued. */
  lemma ExpiryBoundary(cache: map<int, CacheEntry>, chatId: int, probe: LinkProbe)
    requires chatId in cache
    ensures InviteStep(cache, chatId, cache[chatId].timestamp + CACHE_DURATION - 1, probe).calls == []
    ensures Export(chatId) in InviteStep(cache, chatId, cache[chatId].timestamp + CACHE_DURATION, probe).calls
  {
  }

  /** Whether the revoke succeeded changes nothing: its failure is swallowed. */
  lemma RevokeFailureSwallowed(cache: map<int, CacheEntry>, chatId: int, now: int, probe: LinkProbe)
    ensures InviteStep(cache, chatId, now, probe) == InviteStep(cache, chatId, now, probe.(revokeOk := !probe.revokeOk))
  {
  }

  /**
   * After a successful issue, a second call for the same chat within the
   * lifetime answers the same link without any call, whatever Telegram
   * would have said.
   */
  lemma RecallWithinLifetime(cache: map<int, CacheEntry>, chatId: int, now: int, later: int, probe: LinkProbe, probe2: LinkProbe)
    requires !Fresh(cache, chatId, now) && InviteStep(cache, chatId, now, probe).link.Some?
    requires now <= later < now + CACHE_DURATION
    ensures var first := InviteStep(cache, chatId, now, probe);
            var second := InviteStep(first.cache, chatId, later, probe2);
            second.link == first.link && second.calls == [] && second.cache == first.cache
  {
    var first := InviteStep(cache, chatId, now, probe);
    assert first.cache[chatId] == CacheEntry(first.link.value, now);
  }

  /** `channel_cache` together with the operation that reads and writes it. */
  class InviteLinkCache {
    var entries: map<int, CacheEntry>

    constructor ()
      ensures entries == map[]
    {
      entries := map[];
    }

    /** Only non-empty links are ever cached. */
    predicate Valid()
      reads this
    {
      LinksNonEmpty(entries)
    }

    /** `get_invite_link`: the answer, and the calls made, in order. */
    method GetInviteLink(chatId: int, now: int, probe: LinkProbe) returns (link: Option<string>, calls: seq<Call>)
      modifies this`entries
      ensures LinkStep(link, entries, calls) == InviteStep(old(entries), chatId, now, probe)
      ensures old(Valid()) ==> Valid() && (link.Some? ==> link.value != [])
    {
      calls := [];
      if chatId in entries {
        var cached := entries[chatId];
        if now - cached.timestamp < CACHE_DURATION {
          return Some(cached.link), [];
        }
        calls := [Revoke(chatId, cached.link)];
      }
      calls := calls + [Export(chatId)];
      match probe.issue {
        case Issued(exported) =>
          if exported != [] {
            entries := entries[chatId := CacheEntry(exported, now)];
            return Some(exported), calls;
          }
        case AdminRequired =>
          calls := calls + [ReportAdminRequired(chatId)];
        case IssueFailed =>
      }
      link := None;
    }
  }

  // ---------------------------------------------------------------------
  // search_channels
  // ---------------------------------------------------------------------

  /**
   * The query of `/channel <text>`: the last piece of `split(maxsplit=1)`,
   * lower-cased, then stripped. `None` is the `IndexError` of a text with
   * no word at all.
   */
  function SearchQuery(text: string): (r: Option<string>)
    ensures r.None? <==> LStrip(text) == []
  {
    var parts := SplitMax(text, 1);
    if parts == [] then None else Some(Strip(Lower(parts[|parts| - 1])))
  }

  /** The query is missing exactly when the text is all whitespace. */
  lemma NoQueryForBlankText(text: string)
    ensures SearchQuery(text).None? <==> forall i :: 0 <= i < |text| ==> IsSpace(text[i])
  {
    LStripEmpty(text);
  }

  /** The query is the text after the command word, lower-cased and stripped. */
  lemma QueryIsArgument(command: string, gap: string, arg: string)
    requires command != [] && NoSpace(command)
    requires gap != [] && forall i :: 0 <= i < |gap| ==> IsSpace(gap[i])
    requires arg != [] && !IsSpace(arg[0])
    ensures SearchQuery(command + gap + arg) == Some(Strip(Lower(arg)))
  {
    SplitOnceAfterWord(command, gap, arg);
  }

  /** A bare command word is itself the query: `/channel` alone searches for "/channel". */
  lemma BareCommandSearchesItself(command: string)
    requires command != [] && NoSpace(command)
    ensures SearchQuery(command) == Some(Lower(command))
  {
    SplitOnceOfWord(command);
    LowerKeepsSpaces(command[0]);
    LowerKeepsSpaces(command[|command| - 1]);
    StripUnchanged(Lower(command));
  }

  /** What `bot.get_chat` answers for one stored record. */
  datatype ChannelLookup =
    | Channel(title: string)
    | ChannelInvalid
    | LookupFailed(error: string)

  /** Telegram's behaviour while one record is processed: the lookup, the clock, the link calls. */
  datatype ChannelProbe = ChannelProbe(lookup: ChannelLookup, now: int, link: LinkProbe)

  /** One entry of `matched_channels`. */
  datatype Match = Match(title: string, link: string)

  /**
   * How the handler ends: the generic error reply, a silent return for a
   * short query, or one reply per matched channel.
   */
  datatype SearchReply = Failed | Silent | Results(matches: seq<Match>)

  /** The loop's accumulated results, the ids deleted so far, the cache and the link calls. */
  datatype SearchState = SearchState(matched: seq<Match>, healed: seq<int>, cache: map<int, CacheEntry>, calls: seq<Call>)

  /** A lookup that makes the loop delete the record: `ChannelInvalid`, or an error mentioning `CHANNEL_PRIVATE`. */
  predicate Heals(lookup: ChannelLookup) {
    lookup.ChannelInvalid? || (lookup.LookupFailed? && Contains(lookup.error, "CHANNEL_PRIVATE"))
  }

  /** The live title, lower-cased, contains the query. */
  predicate TitleMatches(title: string, q: string) {
    Contains(Lower(title), q)
  }

  /** The record's live title matches and its link step answers with a non-empty link. */
  predicate StepLinks(st: SearchState, chatId: int, q: string, probe: ChannelProbe) {
    && probe.lookup.Channel?
    && TitleMatches(probe.lookup.title, q)
    && InviteStep(st.cache, chatId, probe.now, probe.link).link.Some?
    && InviteStep(st.cache, chatId, probe.now, probe.link).link.value != []
  }

  /** One iteration of the loop over the stored records. */
  function SearchStep(st: SearchState, chatId: int, q: string, probe: ChannelProbe): SearchState {
    match probe.lookup
    case Channel(title) =>
      if TitleMatches(title, q) then
        var s := InviteStep(st.cache, chatId, probe.now, probe.link);
        var hit := if s.link.Some? && s.link.value != [] then [Match(title, s.link.value)] else [];
        SearchState(st.matched + hit, st.healed, s.cache, st.calls + s.calls)
      else st
    case ChannelInvalid => st.(healed := st.healed + [chatId])
    case LookupFailed(error) =>
      if Contains(error, "CHANNEL_PRIVATE") then st.(healed := st.healed + [chatId]) else st
  }

  /** The loop's state after the first `k` records of the snapshot. */
  function SearchUpTo(records: seq<Group>, probes: seq<ChannelProbe>, q: string, cache: map<int, CacheEntry>, k: nat): SearchState
    requires k <= |records| && k <= |probes|
  {
    if k == 0 then SearchState([], [], cache, [])
    else SearchStep(SearchUpTo(records, probes, q, cache, k - 1), records[k - 1].id, q, probes[k - 1])
  }

  /** Every result's title contains the query and its link is non-empty. */
  lemma {:induction false} ResultsMatchQuery(records: seq<Group>, probes: seq<ChannelProbe>, q: string, cache: map<int, CacheEntry>, k: nat)
    requires k <= |records| && k <= |probes|
    requires LinksNonEmpty(cache)
    ensures LinksNonEmpty(SearchUpTo(records, probes, q, cache, k).cache)
    ensures forall m :: m in SearchUpTo(records, probes, q, cache, k).matched ==> TitleMatches(m.title, q) && m.link != []
  {
    if k > 0 {
      ResultsMatchQuery(records, probes, q, cache, k - 1);
    }
  }

  /**
   * Every result comes from a record before `k` whose lookup gave the
   * result's title, which matches the query, and whose link step answered
   * the result's link. A healed or non-matching record gives none.
   */
  lemma {:induction false} ResultsComeFromLinkedRecords(records: seq<Group>, probes: seq<ChannelProbe>, q: string,
                                                        cache: map<int, CacheEntry>, k: nat)
    requires k <= |records| && k <= |probes|
    ensures forall m :: m in SearchUpTo(records, probes, q, cache, k).matched ==>
              exists i :: 0 <= i < k && probes[i].lookup == Channel(m.title) && TitleMatches(m.title, q) &&
                          InviteStep(SearchUpTo(records, probes, q, cache, i).cache, records[i].id,
                                     probes[i].now, probes[i].link).link == Some(m.link)
  {
    if k > 0 {
      ResultsComeFromLinkedRecords(records, probes, q, cache, k - 1);
      var prev := SearchUpTo(records, probes, q, cache, k - 1);
      var cur := SearchUpTo(records, probes, q, cache, k);
      StepExtendsMatched(prev, records[k - 1].id, q, probes[k - 1]);
      StepListsIffLinked(prev, records[k - 1].id, q, probes[k - 1]);
      forall m | m in cur.matched
        ensures exists i :: 0 <= i < k && probes[i].lookup == Channel(m.title) && TitleMatches(m.title, q) &&
                            InviteStep(SearchUpTo(records, probes, q, cache, i).cache, records[i].id,
                                       probes[i].now, probes[i].link).link == Some(m.link)
      {
        if m !in prev.matched {
          assert m == cur.matched[|prev.matched|];
          assert prev == SearchUpTo(records, probes, q, cache, k - 1);
        }
      }
    }
  }

  /** The number of records among the first `k` whose title matches and whose link step answers. */
  function LinkedCount(records: seq<Group>, probes: seq<ChannelProbe>, q: string, cache: map<int, CacheEntry>, k: nat): nat
    requires k <= |records| && k <= |probes|
  {
    if k == 0 then 0
    else
      LinkedCount(records, probes, q, cache, k - 1) +
      (if StepLinks(SearchUpTo(records, probes, q, cache, k - 1), records[k - 1].id, q, probes[k - 1]) then 1 else 0)
  }

  /** There is exactly one result per record whose title matches and whose link step answers. */
  lemma {:induction false} OneResultPerLinkedRecord(records: seq<Group>, probes: seq<ChannelProbe>, q: string,
                                                    cache: map<int, CacheEntry>, k: nat)
    requires k <= |records| && k <= |probes|
    ensures |SearchUpTo(records, probes, q, cache, k).matched| == LinkedCount(records, probes, q, cache, k)
  {
    if k > 0 {
      OneResultPerLinkedRecord(records, probes, q, cache, k - 1);
      StepListsIffLinked(SearchUpTo(records, probes, q, cache, k - 1), records[k - 1].id, q, probes[k - 1]);
    }
  }

  /**
   * The result of a linked record `i` sits right after those of the
   * linked records before it, in every later state: no record is listed
   * twice, and results follow store order.
   */
  lemma ResultsFollowStoreOrder(records: seq<Group>, probes: seq<ChannelProbe>, q: string,
                                cache: map<int, CacheEntry>, i: nat, k: nat)
    requires i < k <= |records| && k <= |probes|
    requires StepLinks(SearchUpTo(records, probes, q, cache, i), records[i].id, q, probes[i])
    ensures LinkedCount(records, probes, q, cache, i) < |SearchUpTo(records, probes, q, cache, k).matched|
    ensures SearchUpTo(records, probes, q, cache, k).matched[LinkedCount(records, probes, q, cache, i)] ==
            Match(probes[i].lookup.title,
                  InviteStep(SearchUpTo(records, probes, q, cache, i).cache, records[i].id, probes[i].now, probes[i].link).link.value)
  {
    LastResultAtCount(records, probes, q, cache, i + 1);
    ResultsGrowInOrder(records, probes, q, cache, i + 1, k);
    PrefixAgrees(SearchUpTo(records, probes, q, cache, i + 1).matched, SearchUpTo(records, probes, q, cache, k).matched,
                 LinkedCount(records, probes, q, cache, i));
  }

  /** A linked record's result sits at the number of linked records before it. */
  lemma LastResultAtCount(records: seq<Group>, probes: seq<ChannelProbe>, q: string, cache: map<int, CacheEntry>, k: nat)
    requires 0 < k <= |records| && k <= |probes|
    requires StepLinks(SearchUpTo(records, probes, q, cache, k - 1), records[k - 1].id, q, probes[k - 1])
    ensures LinkedCount(records, probes, q, cache, k - 1) < |SearchUpTo(records, probes, q, cache, k).matched|
    ensures SearchUpTo(records, probes, q, cache, k).matched[LinkedCount(records, probes, q, cache, k - 1)] ==
            Match(probes[k - 1].lookup.title,
                  InviteStep(SearchUpTo(records, probes, q, cache, k - 1).cache, records[k - 1].id,
                             probes[k - 1].now, probes[k - 1].link).link.value)
  {
    OneResultPerLinkedRecord(records, probes, q, cache, k - 1);
    StepListsIffLinked(SearchUpTo(records, probes, q, cache, k - 1), records[k - 1].id, q, probes[k - 1]);
  }

  /** A record is deleted exactly when its lookup said invalid or private. */
  lemma {:induction false} HealedExactly(records: seq<Group>, probes: seq<ChannelProbe>, q: string, cache: map<int, CacheEntry>, k: nat, x: int)
    requires k <= |records| && k <= |probes|
    ensures x in SearchUpTo(records, probes, q, cache, k).healed <==>
            exists i :: 0 <= i < k && records[i].id == x && Heals(probes[i].lookup)
  {
    if k > 0 {
      HealedExactly(records, probes, q, cache, k - 1, x);
    }
  }

  /** Results keep store order: the results after `j` records begin the results after `k >= j`. */
  lemma {:induction false} ResultsGrowInOrder(records: seq<Group>, probes: seq<ChannelProbe>, q: string, cache: map<int, CacheEntry>, j: nat, k: nat)
    requires j <= k <= |records| && k <= |probes|
    ensures SearchUpTo(records, probes, q, cache, j).matched <= SearchUpTo(records, probes, q, cache, k).matched
  {
    if j < k {
      ResultsGrowInOrder(records, probes, q, cache, j, k - 1);
      var mid := SearchUpTo(records, probes, q, cache, k - 1);
      StepExtendsMatched(mid, records[k - 1].id, q, probes[k - 1]);
    }
  }

  /** One iteration only ever appends to the results. */
  lemma StepExtendsMatched(st: SearchState, chatId: int, q: string, probe: ChannelProbe)
    ensures st.matched <= SearchStep(st, chatId, q, probe).matched
  {
  }

  /** One iteration appends a result exactly when the record is linked, and that result is its title and link. */
  lemma StepListsIffLinked(st: SearchState, chatId: int, q: string, probe: ChannelProbe)
    ensures |SearchStep(st, chatId, q, probe).matched| == |st.matched| + 1 <==> StepLinks(st, chatId, q, probe)
    ensures StepLinks(st, chatId, q, probe) ==>
              SearchStep(st, chatId, q, probe).matched[|st.matched|] ==
              Match(probe.lookup.title, InviteStep(st.cache, chatId, probe.now, probe.link).link.value)
  {
  }

  /** After a full pass, a stored record survives exactly when no lookup of its id healed it. */
  lemma SurvivorsWereReachable(records: seq<Group>, probes: seq<ChannelProbe>, q: string, cache: map<int, CacheEntry>, g: Group)
    requires |records| == |probes|
    ensures multiset(WithoutChats(records, SearchUpTo(records, probes, q, cache, |records|).healed))[g] ==
            if exists i :: 0 <= i < |records| && records[i].id == g.id && Heals(probes[i].lookup) then 0
            else multiset(records)[g]
  {
    var st := SearchUpTo(records, probes, q, cache, |records|);
    WithoutChatsSpec(records, st.healed, g);
    HealedExactly(records, probes, q, cache, |records|, g.id);
  }

  /**
   * A record whose live title matches, and whose link step answers with a
   * non-empty link (cached or newly issued), is listed with that link.
   */
  lemma ListedWhenLinked(records: seq<Group>, probes: seq<ChannelProbe>, q: string, cache: map<int, CacheEntry>, i: nat, k: nat)
    requires i < k <= |records| && k <= |probes|
    requires probes[i].lookup.Channel? && TitleMatches(probes[i].lookup.title, q)
    requires InviteStep(SearchUpTo(records, probes, q, cache, i).cache, records[i].id, probes[i].now, probes[i].link).link.Some?
    requires InviteStep(SearchUpTo(records, probes, q, cache, i).cache, records[i].id, probes[i].now, probes[i].link).link.value != []
    ensures Match(probes[i].lookup.title,
                  InviteStep(SearchUpTo(records, probes, q, cache, i).cache, records[i].id, probes[i].now, probes[i].link).link.value)
            in SearchUpTo(records, probes, q, cache, k).matched
  {
    ResultsFollowStoreOrder(records, probes, q, cache, i, k);
  }

  /**
   * A matching record whose export yields a non-empty link is listed with
   * the link its step answers; when its cache entry is not fresh, that is
   * the exported link itself.
   */
  lemma ListedWhenIssued(records: seq<Group>, probes: seq<ChannelProbe>, q: string, cache: map<int, CacheEntry>, i: nat, k: nat)
    requires i < k <= |records| && k <= |probes|
    requires LinksNonEmpty(cache)
    requires probes[i].lookup.Channel? && TitleMatches(probes[i].lookup.title, q)
    requires probes[i].link.issue.Issued? && probes[i].link.issue.link != []
    ensures InviteStep(SearchUpTo(records, probes, q, cache, i).cache, records[i].id, probes[i].now, probes[i].link).link.Some?
    ensures Match(probes[i].lookup.title,
                  InviteStep(SearchUpTo(records, probes, q, cache, i).cache, records[i].id, probes[i].now, probes[i].link).link.value)
            in SearchUpTo(records, probes, q, cache, k).matched
    ensures !Fresh(SearchUpTo(records, probes, q, cache, i).cache, records[i].id, probes[i].now) ==>
              Match(probes[i].lookup.title, probes[i].link.issue.link) in SearchUpTo(records, probes, q, cache, k).matched
  {
    var before := SearchUpTo(records, probes, q, cache, i);
    ResultsMatchQuery(records, probes, q, cache, i);
    IssuedLinkAnswers(before.cache, records[i].id, probes[i].now, probes[i].link);
    ListedWhenLinked(records, probes, q, cache, i, k);
  }

  /** A matching record with a fresh cached link is listed with that link, whatever the export would do. */
  lemma ListedFromCache(records: seq<Group>, probes: seq<ChannelProbe>, q: string, cache: map<int, CacheEntry>, i: nat, k: nat)
    requires i < k <= |records| && k <= |probes|
    requires LinksNonEmpty(cache)
    requires probes[i].lookup.Channel? && TitleMatches(probes[i].lookup.title, q)
    requires Fresh(SearchUpTo(records, probes, q, cache, i).cache, records[i].id, probes[i].now)
    ensures Match(probes[i].lookup.title, SearchUpTo(records, probes, q, cache, i).cache[records[i].id].link)
            in SearchUpTo(records, probes, q, cache, k).matched
  {
    var before := SearchUpTo(records, probes, q, cache, i);
    ResultsMatchQuery(records, probes, q, cache, i);
    assert InviteStep(before.cache, records[i].id, probes[i].now, probes[i].link).link == Some(before.cache[records[i].id].link);
    ListedWhenLinked(records, probes, q, cache, i, k);
  }

  /** With only non-empty links cached, a non-empty issue always yields a non-empty answer. */
  lemma IssuedLinkAnswers(cache: map<int, CacheEntry>, chatId: int, now: int, probe: LinkProbe)
    requires LinksNonEmpty(cache)
    requires probe.issue.Issued? && probe.issue.link != []
    ensures InviteStep(cache, chatId, now, probe).link.Some?
    ensures InviteStep(cache, chatId, now, probe).link.value != []
  {
  }

  /**
   * One iteration of the loop: the lookup, then either the title test and
   * the link fetch, or the deletion of an unreachable record.
   */
  method VisitRecord(db: MongoDB, cache: InviteLinkCache, chatId: int, q: string, probe: ChannelProbe,
                     matched: seq<Match>, calls: seq<Call>, ghost healed: seq<int>)
    returns (matched': seq<Match>, calls': seq<Call>, ghost healed': seq<int>)
    modifies db`groups, cache`entries
    ensures SearchState(matched', healed', cache.entries, calls') ==
            SearchStep(SearchState(matched, healed, old(cache.entries), calls), chatId, q, probe)
    ensures healed' == healed ==> db.groups == old(db.groups)
    ensures healed' != healed ==> healed' == healed + [chatId] && db.groups == WithoutChat(old(db.groups), chatId)
  {
    matched', calls', healed' := matched, calls, healed;
    match probe.lookup {
      case Channel(title) =>
        if Contains(Lower(title), q) {
          var link, linkCalls := cache.GetInviteLink(chatId, probe.now, probe.link);
          calls' := calls + linkCalls;
          if link.Some? && link.value != [] {
            matched' := matched + [Match(title, link.value)];
          }
        }
      case ChannelInvalid =>
        db.DeleteChat(chatId);
        healed' := healed + [chatId];
      case LookupFailed(error) =>
        if Contains(error, "CHANNEL_PRIVATE") {
          db.DeleteChat(chatId);
          healed' := healed + [chatId];
        }
    }
  }

  /**
   * The loop of `search_channels` over the snapshot `chats` of the store,
   * in store order: the results, the calls, the cache and the store after
   * deletions are those of `SearchUpTo` over all the records.
   */
  method VisitRecords(db: MongoDB, cache: InviteLinkCache, chats: seq<Group>, q: string, probes: seq<ChannelProbe>)
    returns (matched: seq<Match>, calls: seq<Call>, ghost healed: seq<int>)
    requires |probes| == |chats| && db.groups == chats
    modifies db`groups, cache`entries
    ensures SearchUpTo(chats, probes, q, old(cache.entries), |chats|) == SearchState(matched, healed, cache.entries, calls)
    ensures db.groups == WithoutChats(chats, healed)
  {
    ghost var start := cache.entries;
    matched, calls, healed := [], [], [];
    var i := 0;
    while i < |chats|
      invariant 0 <= i <= |chats|
      invariant SearchUpTo(chats, probes, q, start, i) == SearchState(matched, healed, cache.entries, calls)
      invariant db.groups == WithoutChats(chats, healed)
    {
      ghost var before := healed;
      ghost var st := SearchState(matched, healed, cache.entries, calls);
      assert SearchUpTo(chats, probes, q, start, i + 1) == SearchStep(st, chats[i].id, q, probes[i]);
      matched, calls, healed := VisitRecord(db, cache, chats[i].id, q, probes[i], matched, calls, healed);
      if healed != before {
        WithoutChatsSnoc(chats, before, chats[i].id);
      }
      i := i + 1;
    }
  }

  /**
   * `search_channels`: a missing query is the generic error reply; a query
   * shorter than three characters returns before the store is read;
   * otherwise the loop runs over the records in store order and the store
   * loses exactly the records whose ids were healed.
   */
  method SearchChannels(db: MongoDB, cache: InviteLinkCache, text: string, probes: seq<ChannelProbe>)
    returns (reply: SearchReply, calls: seq<Call>)
    requires |probes| == |db.groups|
    modifies db`groups, cache`entries
    ensures SearchQuery(text).None? ==>
              reply == Failed && calls == [] && db.groups == old(db.groups) && cache.entries == old(cache.entries)
    ensures SearchQuery(text).Some? && |SearchQuery(text).value| < 3 ==>
              reply == Silent && calls == [] && db.groups == old(db.groups) && cache.entries == old(cache.entries)
    ensures SearchQuery(text).Some? && |SearchQuery(text).value| >= 3 ==>
              var st := SearchUpTo(old(db.groups), probes, SearchQuery(text).value, old(cache.entries), |probes|);
              reply == Results(st.matched) && calls == st.calls && cache.entries == st.cache &&
              db.groups == WithoutChats(old(db.groups), st.healed)
  {
    var query := SearchQuery(text);
    if query.None? {
      return Failed, [];
    }
    var q := query.value;
    if |q| < 3 {
      return Silent, [];
    }
    var chats := db.GetAllChats();
    var matched;
    ghost var healed;
    matched, calls, healed := VisitRecords(db, cache, chats, q, probes);
    reply := Results(matched);
  }

  /** Both scenario titles contain "news" once lower-cased. */
  lemma NewsTitlesMatch()
    ensures TitleMatches("News A", "news") && TitleMatches("News B", "news")
  {
    assert Lower("News A") == "news a" && Lower("News B") == "news b";
    ContainsAt(Lower("News A"), "news", 0);
    ContainsAt(Lower("News B"), "news", 0);
  }

  /** The scenario query: `/channel news` searches for "news". */
  lemma NewsQuery()
    ensures SearchQuery("/channel news") == Some("news")
  {
    NewsIsTheArgument();
    NewsIsItsOwnQuery();
  }

  lemma NewsIsTheArgument()
    ensures SearchQuery("/channel news") == Some(Strip(Lower("news")))
  {
    assert "/channel news" == "/channel" + " " + "news";
    QueryIsArgument("/channel", " ", "news");
  }

  lemma NewsIsItsOwnQuery()
    ensures Strip(Lower("news")) == "news"
  {
    assert Lower("news") == "news";
    StripUnchanged("news");
  }

  /** A matching record with no cached link: one export, and the new link is listed and cached. */
  lemma IssuedStep(st: SearchState, chatId: int, q: string, probe: ChannelProbe, title: string, link: string)
    requires probe.lookup == Channel(title) && TitleMatches(title, q)
    requires chatId !in st.cache && probe.link.issue == Issued(link) && link != []
    ensures SearchStep(st, chatId, q, probe) ==
            SearchState(st.matched + [Match(title, link)], st.healed,
                        st.cache[chatId := CacheEntry(link, probe.now)], st.calls + [Export(chatId)])
  {
    assert InviteStep(st.cache, chatId, probe.now, probe.link) ==
           LinkStep(Some(link), st.cache[chatId := CacheEntry(link, probe.now)], [] + [Export(chatId)]);
  }

  /** A matching record with a fresh cached link: listed with that link, and no call. */
  lemma CachedStep(st: SearchState, chatId: int, q: string, probe: ChannelProbe, title: string)
    requires probe.lookup == Channel(title) && TitleMatches(title, q)
    requires Fresh(st.cache, chatId, probe.now) && st.cache[chatId].link != []
    ensures SearchStep(st, chatId, q, probe) ==
            st.(matched := st.matched + [Match(title, st.cache[chatId].link)])
  {
    assert st.calls + [] == st.calls;
  }

  /** The loop's state after record `k - 1` when that record matches and is issued a new link. */
  lemma UpToIssued(records: seq<Group>, probes: seq<ChannelProbe>, q: string, cache: map<int, CacheEntry>, k: nat,
                   title: string, link: string)
    requires 0 < k <= |records| && k <= |probes|
    requires probes[k - 1].lookup == Channel(title) && TitleMatches(title, q)
    requires records[k - 1].id !in SearchUpTo(records, probes, q, cache, k - 1).cache
    requires probes[k - 1].link.issue == Issued(link) && link != []
    ensures var prev := SearchUpTo(records, probes, q, cache, k - 1);
            SearchUpTo(records, probes, q, cache, k) ==
            SearchState(prev.matched + [Match(title, link)], prev.healed,
                        prev.cache[records[k - 1].id := CacheEntry(link, probes[k - 1].now)],
                        prev.calls + [Export(records[k - 1].id)])
  {
    IssuedStep(SearchUpTo(records, probes, q, cache, k - 1), records[k - 1].id, q, probes[k - 1], title, link);
  }

  /** A first pass over two matching records with nothing cached: two exports, both links cached and listed. */
  lemma FirstPassIssuesBoth(records: seq<Group>, probes: seq<ChannelProbe>, q: string, now: int,
                            idA: int, idB: int, titleA: string, titleB: string, linkA: string, linkB: string)
    requires |records| == 2 && records[0].id == idA && records[1].id == idB && idA != idB
    requires |probes| == 2
    requires probes[0] == ChannelProbe(Channel(titleA), now, LinkProbe(true, Issued(linkA)))
    requires probes[1] == ChannelProbe(Channel(titleB), now, LinkProbe(true, Issued(linkB)))
    requires TitleMatches(titleA, q) && TitleMatches(titleB, q)
    requires linkA != [] && linkB != []
    ensures SearchUpTo(records, probes, q, map[], 2) ==
            SearchState([Match(titleA, linkA), Match(titleB, linkB)], [],
                        map[idA := CacheEntry(linkA, now), idB := CacheEntry(linkB, now)],
                        [Export(idA), Export(idB)])
  {
    UpToIssued(records, probes, q, map[], 1, titleA, linkA);
    var s1 := SearchUpTo(records, probes, q, map[], 1);
    assert s1 == SearchState([Match(titleA, linkA)], [], map[idA := CacheEntry(linkA, now)], [Export(idA)]);
    assert idB !in s1.cache;
    UpToIssued(records, probes, q, map[], 2, titleB, linkB);
    assert s1.cache[idB := CacheEntry(linkB, now)] == map[idA := CacheEntry(linkA, now), idB := CacheEntry(linkB, now)];
    assert s1.matched + [Match(titleB, linkB)] == [Match(titleA, linkA), Match(titleB, linkB)];
    assert s1.calls + [Export(idB)] == [Export(idA), Export(idB)];
  }

  /** A second pass over the same two records within the lifetime: the cached links, and no call. */
  lemma SecondPassFromCache(records: seq<Group>, probes: seq<ChannelProbe>, q: string, now: int, later: int,
                            idA: int, idB: int, titleA: string, titleB: string, linkA: string, linkB: string)
    requires |records| == 2 && records[0].id == idA && records[1].id == idB && idA != idB
    requires |probes| == 2 && probes[0].lookup == Channel(titleA) && probes[1].lookup == Channel(titleB)
    requires probes[0].now == probes[1].now == later && now <= later < now + CACHE_DURATION
    requires TitleMatches(titleA, q) && TitleMatches(titleB, q)
    requires linkA != [] && linkB != []
    ensures var cache := map[idA := CacheEntry(linkA, now), idB := CacheEntry(linkB, now)];
            SearchUpTo(records, probes, q, cache, 2) ==
            SearchState([Match(titleA, linkA), Match(titleB, linkB)], [], cache, [])
  {
    var cache := map[idA := CacheEntry(linkA, now), idB := CacheEntry(linkB, now)];
    var s0 := SearchUpTo(records, probes, q, cache, 0);
    var s1 := SearchUpTo(records, probes, q, cache, 1);
    assert s1 == SearchStep(s0, idA, q, probes[0]);
    CachedStep(s0, idA, q, probes[0], titleA);
    assert s1 == SearchState([Match(titleA, linkA)], [], cache, []);
    assert SearchUpTo(records, probes, q, cache, 2) == SearchStep(s1, idB, q, probes[1]);
    CachedStep(s1, idB, q, probes[1], titleB);
  }

  /**
   * The search scenario: with "News A" (100) and "News B" (200) stored and
   * both lookups and exports succeeding, `/channel news` lists both
   * channels in store order with their links; the same search again within
   * the lifetime lists the same and makes no call to Telegram's link API.
   */
  method NewsSearchScenario(rootAdmins: seq<int>, now: int, later: int, linkA: string, linkB: string, again: seq<ChannelProbe>)
    returns (first: SearchReply, second: SearchReply, secondCalls: seq<Call>)
    requires linkA != [] && linkB != []
    requires now <= later < now + CACHE_DURATION
    requires |again| == 2 && again[0].lookup == Channel("News A") && again[1].lookup == Channel("News B")
    requires again[0].now == again[1].now == later
    ensures first == Results([Match("News A", linkA), Match("News B", linkB)])
    ensures second == first && secondCalls == []
  {
    var db := new MongoDB(rootAdmins);
    db.AddChat(100, "News A");
    db.AddChat(200, "News B");
    var cache := new InviteLinkCache();
    var probes := [ChannelProbe(Channel("News A"), now, LinkProbe(true, Issued(linkA))),
                   ChannelProbe(Channel("News B"), now, LinkProbe(true, Issued(linkB)))];
    var text := "/channel news";
    NewsQuery();
    var records := db.groups;
    assert records == [NewGroup(100, "News A"), NewGroup(200, "News B")];
    NewsTitlesMatch();
    FirstPassIssuesBoth(records, probes, "news", now, 100, 200, "News A", "News B", linkA, linkB);
    SecondPassFromCache(records, again, "news", now, later, 100, 200, "News A", "News B", linkA, linkB);
    var calls;
    first, calls := SearchChannels(db, cache, text, probes);
    second, secondCalls := SearchChannels(db, cache, text, again);
  }
}
