/** The referral and reward ledger of the bot as values: the two module-level
    JavaScript Maps, what each handler computes from them, and what every
    sequence of handler runs starting from the empty ledger can reach. */
module Ledger {
  import opened Decimal
  import opened Tokens

  datatype Option<T> = None | Some(value: T)

  /** A key of a JavaScript Map. A string key and a number key are different
      keys, even when the string is the number's decimal rendering. */
  datatype Key = Str(s: string) | Num(n: int)

  /** `referrals`: each referrer key to the user ids pushed onto its array, in push order. */
  type Referrals = map<Key, seq<int>>

  /** The point threshold of the withdraw handler. */
  const MinWithdrawPoints: nat := 5
  /** The bounds of `Math.floor(100000 + Math.random() * 900000)`. */
  const MinCode: int := 100000
  const MaxCode: int := 999999

  ghost predicate Distinct<T>(s: seq<T>) {
    forall i, j :: 0 <= i < j < |s| ==> s[i] != s[j]
  }

  /** `referrals.get(key)?.length || 0`: the length of the stored list, and 0
      both for a missing entry and for an empty list. */
  function PointsAt(refs: Referrals, key: Key): (p: nat)
    ensures key in refs ==> p == |refs[key]|
    ensures p == 0 <==> key !in refs || refs[key] == []
  {
    if key in refs then |refs[key]| else 0
  }

  /** The referrer token of a /start message: `args[1]` of `text.split(" ")`
      when `args.length > 1`. */
  function ReferrerToken(text: string): (t: Option<string>)
    ensures t.None? <==> |SplitOnSpaces(text)| <= 1
    ensures t.Some? ==> ' ' !in t.value
  {
    var args := SplitOnSpaces(text);
    if |args| > 1 then Some(args[1]) else None
  }

  // ---------------------------------------------------------------------
  // Referral attribution (the /start command handler)
  // ---------------------------------------------------------------------

  /** What the /start handler did with the referral: nothing for lack of a
      token, nothing for a self-referral, nothing for a user already on the
      referrer's list, or a push, after which the referrer is told the new
      total of its list. */
  datatype Attribution =
    | NoReferrer
    | SelfReferral
    | AlreadyListed(referrer: string)
    | Credited(referrer: string, total: nat)

  datatype Attributed = Attributed(referrals: Referrals, attribution: Attribution)

  /** The /start handler's effect on `referrals` when user `userId` sends `text`.
      It never removes anything: every key stays, and every list keeps its
      old entries as a prefix. */
  function Attribute(refs: Referrals, userId: int, text: string): (r: Attributed)
    ensures refs.Keys <= r.referrals.Keys
    ensures forall k :: k in refs ==> refs[k] <= r.referrals[k]
  {
    match ReferrerToken(text)
    case None => Attributed(refs, NoReferrer)
    case Some(referrerId) =>
      if referrerId == DecimalString(userId) then Attributed(refs, SelfReferral)
      else
        var list := if Str(referrerId) in refs then refs[Str(referrerId)] else [];
        if userId in list then Attributed(refs, AlreadyListed(referrerId))
        else Attributed(refs[Str(referrerId) := list + [userId]], Credited(referrerId, |list| + 1))
  }

  /** A message without a second token leaves `referrals` as it was. */
  lemma NoTokenNoChange(refs: Referrals, userId: int, text: string)
    requires |SplitOnSpaces(text)| <= 1
    ensures Attribute(refs, userId, text) == Attributed(refs, NoReferrer)
  {
  }

  /** A token equal to the user's own id rendered as a string changes nothing. */
  lemma SelfReferralNoChange(refs: Referrals, userId: int, text: string)
    requires ReferrerToken(text) == Some(DecimalString(userId))
    ensures Attribute(refs, userId, text) == Attributed(refs, SelfReferral)
  {
  }

  /** The self-referral test compares strings: it rejects exactly the token
      that renders the user's own id. */
  lemma SelfReferralExactly(refs: Referrals, userId: int, text: string)
    ensures Attribute(refs, userId, text).attribution == SelfReferral
        <==> exists x :: ReferrerToken(text) == Some(x) && x == DecimalString(userId)
  {
  }

  /** An accepted referral appends the user at the end of the referrer's list,
      which starts empty if the referrer was unknown; every other key keeps
      its list, and no key appears besides the referrer's. */
  lemma CreditAppends(refs: Referrals, userId: int, text: string)
    ensures var r := Attribute(refs, userId, text);
      r.attribution.Credited? ==>
        var k := Str(r.attribution.referrer);
        && ReferrerToken(text) == Some(r.attribution.referrer)
        && r.attribution.referrer != DecimalString(userId)
        && k in r.referrals
        && r.referrals[k] == (if k in refs then refs[k] else []) + [userId]
        && r.referrals.Keys == refs.Keys + {k}
        && (forall k' :: k' in refs && k' != k ==> r.referrals[k'] == refs[k'])
  {
  }

  /** A /start credits the referrer exactly when there is a token, it is not
      the user's own rendered id, and the user is not yet on that token's list
      (an unknown referrer's list counts as empty). */
  lemma CreditedExactly(refs: Referrals, userId: int, text: string)
    ensures Attribute(refs, userId, text).attribution.Credited?
        <==> exists t :: ReferrerToken(text) == Some(t) && t != DecimalString(userId)
               && userId !in (if Str(t) in refs then refs[Str(t)] else [])
  {
  }

  /** A /start reports the user as already listed exactly when there is a
      token, it is not the user's own rendered id, and the user is already on
      that token's list. */
  lemma AlreadyListedExactly(refs: Referrals, userId: int, text: string)
    ensures Attribute(refs, userId, text).attribution.AlreadyListed?
        <==> exists t :: ReferrerToken(text) == Some(t) && t != DecimalString(userId)
               && Str(t) in refs && userId in refs[Str(t)]
    ensures var a := Attribute(refs, userId, text).attribution;
      a.AlreadyListed? ==> ReferrerToken(text) == Some(a.referrer)
  {
  }

  /** Only a credit changes `referrals`; the other three outcomes leave it alone. */
  lemma OnlyCreditChanges(refs: Referrals, userId: int, text: string)
    ensures var r := Attribute(refs, userId, text);
      !r.attribution.Credited? <==> r.referrals == refs
  {
  }

  /** The total sent to the referrer is the new length of its list, one more than before. */
  lemma CreditedTotal(refs: Referrals, userId: int, text: string)
    ensures var r := Attribute(refs, userId, text);
      r.attribution.Credited? ==>
        && r.attribution.total == PointsAt(r.referrals, Str(r.attribution.referrer))
        && r.attribution.total == PointsAt(refs, Str(r.attribution.referrer)) + 1
  {
  }

  /** Sending the same /start message twice has the effect of sending it once.
      After a credit the repeat reports the user as already listed; any other
      outcome is reported again unchanged. */
  lemma AttributeIdempotent(refs: Referrals, userId: int, text: string)
    ensures var once := Attribute(refs, userId, text);
      var twice := Attribute(once.referrals, userId, text);
      && twice.referrals == once.referrals
      && twice.attribution ==
           (if once.attribution.Credited? then AlreadyListed(once.attribution.referrer) else once.attribution)
  {
  }

  /** No referrer's list holds the same user id twice. */
  ghost predicate NoDuplicates(refs: Referrals) {
    forall k :: k in refs ==> Distinct(refs[k])
  }

  lemma AttributeKeepsNoDuplicates(refs: Referrals, userId: int, text: string)
    requires NoDuplicates(refs)
    ensures NoDuplicates(Attribute(refs, userId, text).referrals)
  {
  }

  /** A message carrying the referral link of `inviter` (the start payload is
      the inviter's id, so Telegram delivers "/start " followed by it) names the
      inviter as referrer, and is a self-referral exactly when the joiner is
      the inviter. */
  lemma {:induction false} FollowReferralLink(refs: Referrals, inviter: int, joiner: int)
    ensures ReferrerToken("/start " + DecimalString(inviter)) == Some(DecimalString(inviter))
    ensures Attribute(refs, joiner, "/start " + DecimalString(inviter)).attribution == SelfReferral
        <==> joiner == inviter
  {
    var text := "/start " + DecimalString(inviter);
    assert text == JoinWithSpaces(["/start", DecimalString(inviter)]);
    SplitJoin(["/start", DecimalString(inviter)]);
    DecimalStringInjective(joiner, inviter);
  }

  // ---------------------------------------------------------------------
  // Points (the "mypoints" and "withdraw" actions)
  // ---------------------------------------------------------------------

  /** How the two actions read a user's points: with the user's NUMERIC id as the key. */
  function PointsOf(refs: Referrals, userId: int): (p: nat)
    ensures Num(userId) in refs ==> p == |refs[Num(userId)]|
    ensures Num(userId) !in refs ==> p == 0
  {
    PointsAt(refs, Num(userId))
  }

  /** A list stored under the user's id rendered as a string, as /start stores
      the lists of referrers, does not change that user's points. */
  lemma StringKeyIgnored(refs: Referrals, userId: int, list: seq<int>)
    ensures PointsOf(refs[Str(DecimalString(userId)) := list], userId) == PointsOf(refs, userId)
  {
  }

  /** Every referrer key that the /start handler writes is a string. */
  ghost predicate StringKeysOnly(refs: Referrals) {
    forall k :: k in refs ==> k.Str?
  }

  /** Once every key is a string, the numeric lookup finds nothing: every user has 0 points. */
  lemma NumericLookupMisses(refs: Referrals, userId: int)
    requires StringKeysOnly(refs)
    ensures PointsOf(refs, userId) == 0
  {
  }

  /** Attribution writes string keys only. */
  lemma AttributeKeepsStringKeys(refs: Referrals, userId: int, text: string)
    requires StringKeysOnly(refs)
    ensures StringKeysOnly(Attribute(refs, userId, text).referrals)
  {
  }

  // ---------------------------------------------------------------------
  // The claim code registry `withdrawRequests`
  // ---------------------------------------------------------------------

  /** A JavaScript Map from numbers to strings: its entries, and its keys in
      the order they were first set, which is the Map's iteration order. */
  datatype Registry = Registry(codes: map<int, string>, order: seq<int>)

  ghost predicate WellFormed(reg: Registry) {
    && Distinct(reg.order)
    && (forall k :: k in reg.codes <==> k in reg.order)
    && (forall i :: 0 <= i < |reg.order| ==> reg.order[i] in reg.codes)
  }

  const EmptyRegistry := Registry(map[], [])

  /** `withdrawRequests.set(user, code)`: overwrites the code of a known user
      in place, and appends an unknown user at the end of the iteration order. */
  function SetCode(reg: Registry, user: int, code: string): (r: Registry)
    requires WellFormed(reg)
    ensures WellFormed(r)
    ensures r.codes == reg.codes[user := code]
    ensures user in reg.codes ==> r.order == reg.order
    ensures user !in reg.codes ==> r.order == reg.order + [user]
  {
    if user in reg.codes then Registry(reg.codes[user := code], reg.order)
    else Registry(reg.codes[user := code], reg.order + [user])
  }

  lemma {:induction false} DistinctCard<T>(s: seq<T>)
    requires Distinct(s)
    ensures |set x | x in s| == |s|
  {
    if s != [] {
      DistinctCard(s[1..]);
      assert (set x | x in s) == {s[0]} + (set x | x in s[1..]);
    }
  }

  /** The registry's size is the length of its iteration order. */
  lemma RegistrySize(reg: Registry)
    requires WellFormed(reg)
    ensures |reg.codes| == |reg.order|
  {
    forall x ensures x in reg.codes.Keys <==> x in (set y | y in reg.order) {
    }
    assert reg.codes.Keys == set x | x in reg.order;
    DistinctCard(reg.order);
  }

  // ---------------------------------------------------------------------
  // Withdrawal (the "withdraw" action)
  // ---------------------------------------------------------------------

  /** `Math.floor(100000 + Math.random() * 900000).toString()` for the drawn
      integer `draw`: a six-digit string without a leading zero that denotes `draw`. */
  function ClaimCode(draw: int): (code: string)
    requires MinCode <= draw <= MaxCode
    ensures |code| == 6 && AllDigits(code) && code[0] != '0'
    ensures ValueOf(code) == draw
  {
    NatDigitsLength(draw, 5);
    ValueOfNatDigits(draw);
    DecimalString(draw)
  }

  datatype WithdrawReply = NeedMoreReferrals | Approved(code: string)

  datatype Withdrawn = Withdrawn(registry: Registry, reply: WithdrawReply)

  /** The withdraw action of user `userId` with random draw `draw`: refused below
      the threshold, otherwise the code is stored under the user, replacing any
      earlier code of theirs. `referrals` is only read. */
  function Withdraw(refs: Referrals, reg: Registry, userId: int, draw: int): (w: Withdrawn)
    requires WellFormed(reg)
    requires MinCode <= draw <= MaxCode
    ensures WellFormed(w.registry)
    ensures w.reply.Approved? <==> PointsOf(refs, userId) >= MinWithdrawPoints
    ensures w.reply.NeedMoreReferrals? ==> w.registry == reg
    ensures w.reply.Approved? ==>
      && AllDigits(w.reply.code) && ValueOf(w.reply.code) == draw && |w.reply.code| == 6
      && w.registry.codes == reg.codes[userId := w.reply.code]
      && (userId in reg.codes ==> w.registry.order == reg.order)
      && (userId !in reg.codes ==> w.registry.order == reg.order + [userId])
  {
    if PointsOf(refs, userId) < MinWithdrawPoints then Withdrawn(reg, NeedMoreReferrals)
    else
      var code := ClaimCode(draw);
      Withdrawn(SetCode(reg, userId, code), Approved(code))
  }

  // ---------------------------------------------------------------------
  // Admin lookup (the /lookupcodes command)
  // ---------------------------------------------------------------------

  datatype CodeLine = CodeLine(user: int, code: string)

  datatype LookupReply = AdminOnly | NoCodesYet | Codes(lines: seq<CodeLine>)

  /** The lines of the report, one per registry entry in iteration order. */
  function Lines(reg: Registry): (lines: seq<CodeLine>)
    requires WellFormed(reg)
    ensures |lines| == |reg.order|
    ensures forall i :: 0 <= i < |lines| ==> lines[i].user == reg.order[i] && lines[i].user in reg.codes
    ensures forall i :: 0 <= i < |lines| ==> lines[i].code == reg.codes[reg.order[i]]
    ensures forall u :: u in reg.codes ==> CodeLine(u, reg.codes[u]) in lines
  {
    var lines := seq(|reg.order|, i requires 0 <= i < |reg.order| => CodeLine(reg.order[i], reg.codes[reg.order[i]]));
    assert forall u :: u in reg.codes ==> CodeLine(u, reg.codes[u]) in lines by {
      forall u | u in reg.codes ensures CodeLine(u, reg.codes[u]) in lines {
        var i :| 0 <= i < |reg.order| && reg.order[i] == u;
        assert lines[i] == CodeLine(u, reg.codes[u]);
      }
    }
    lines
  }

  /** Whether the caller is the admin, that is, is not denied by the test
      `callerId.toString() !== process.env.ADMIN_ID`; an unset variable
      (`undefined`) equals no string, so then nobody is the admin. */
  predicate IsAdmin(callerId: int, adminId: Option<string>): (r: bool)
    ensures adminId.None? ==> !r
    ensures r ==> adminId == Some(DecimalString(callerId))
  {
    adminId == Some(DecimalString(callerId))
  }

  /** At most one caller id is the admin, whatever ADMIN_ID holds. */
  lemma AdminUnique(a: int, b: int, adminId: Option<string>)
    requires IsAdmin(a, adminId) && IsAdmin(b, adminId)
    ensures a == b
  {
    DecimalStringInjective(a, b);
  }

  /** The reply of /lookupcodes: a denial for anyone but the admin, the
      "none issued" reply for an empty registry, and otherwise one line per
      entry, each with the user's current code, every entry exactly once. */
  function Lookup(reg: Registry, callerId: int, adminId: Option<string>): (r: LookupReply)
    requires WellFormed(reg)
    ensures r.AdminOnly? <==> !IsAdmin(callerId, adminId)
    ensures r.NoCodesYet? <==> IsAdmin(callerId, adminId) && reg.codes == map[]
    ensures r.Codes? ==>
      && |r.lines| == |reg.codes| == |reg.order| > 0
      && (forall i :: 0 <= i < |r.lines| ==> r.lines[i].user == reg.order[i])
      && (forall i :: 0 <= i < |r.lines| ==>
            r.lines[i].user in reg.codes && r.lines[i].code == reg.codes[r.lines[i].user])
      && (forall i, j :: 0 <= i < j < |r.lines| ==> r.lines[i].user != r.lines[j].user)
      && (forall u :: u in reg.codes ==> CodeLine(u, reg.codes[u]) in r.lines)
  {
    if !IsAdmin(callerId, adminId) then AdminOnly
    else if |reg.codes| == 0 then NoCodesYet
    else
      var lines := Lines(reg);
      RegistrySize(reg);
      assert forall i, j :: 0 <= i < j < |lines| ==> lines[i].user != lines[j].user;
      Codes(lines)
  }

  // ---------------------------------------------------------------------
  // The whole ledger under any sequence of handler runs
  // ---------------------------------------------------------------------

  datatype State = State(referrals: Referrals, registry: Registry)

  /** Both Maps are empty when the process starts; nothing is persisted. */
  const Initial := State(map[], EmptyRegistry)

  /** One handler run: /start with its text, the two menu actions, /lookupcodes. */
  datatype Event =
    | StartCommand(userId: int, text: string)
    | MyPointsAction(userId: int)
    | WithdrawAction(userId: int, draw: int)
    | LookupCommand(callerId: int, adminId: Option<string>)

  predicate ValidEvent(e: Event) {
    e.WithdrawAction? ==> MinCode <= e.draw <= MaxCode
  }

  function Step(s: State, e: Event): (r: State)
    requires WellFormed(s.registry) && ValidEvent(e)
    ensures WellFormed(r.registry)
    ensures !e.StartCommand? ==> r.referrals == s.referrals
    ensures !e.WithdrawAction? ==> r.registry == s.registry
  {
    match e
    case StartCommand(u, text) => State(Attribute(s.referrals, u, text).referrals, s.registry)
    case MyPointsAction(_) => s
    case WithdrawAction(u, draw) => State(s.referrals, Withdraw(s.referrals, s.registry, u, draw).registry)
    case LookupCommand(_, _) => s
  }

  function Run(s: State, events: seq<Event>): (r: State)
    requires WellFormed(s.registry)
    requires forall i :: 0 <= i < |events| ==> ValidEvent(events[i])
    ensures WellFormed(r.registry)
    decreases |events|
  {
    if events == [] then s else Run(Step(s, events[0]), events[1..])
  }

  /** What holds of every ledger the handlers can reach: every referrer key is
      a string, every list is non-empty and free of duplicates, and the
      registry is empty. */
  ghost predicate Reachable(s: State) {
    && StringKeysOnly(s.referrals)
    && NoDuplicates(s.referrals)
    && (forall k :: k in s.referrals ==> |s.referrals[k]| >= 1)
    && s.registry == EmptyRegistry
  }

  lemma StepKeepsReachable(s: State, e: Event)
    requires WellFormed(s.registry) && ValidEvent(e)
    requires Reachable(s)
    ensures Reachable(Step(s, e))
  {
  }

  lemma {:induction false} RunKeepsReachable(s: State, events: seq<Event>)
    requires WellFormed(s.registry)
    requires forall i :: 0 <= i < |events| ==> ValidEvent(events[i])
    requires Reachable(s)
    ensures Reachable(Run(s, events))
    decreases |events|
  {
    if events != [] {
      StepKeepsReachable(s, events[0]);
      RunKeepsReachable(Step(s, events[0]), events[1..]);
    }
  }

  /** Because /start writes string keys and the point lookups use numeric
      keys, no run of the handlers from the empty ledger ever gives a user a
      point, approves a withdrawal or issues a code: every later withdraw is
      refused and the admin always gets the "none issued" reply. */
  lemma NoWithdrawalEverApproved(events: seq<Event>, userId: int, draw: int, adminId: int)
    requires forall i :: 0 <= i < |events| ==> ValidEvent(events[i])
    requires MinCode <= draw <= MaxCode
    ensures var s := Run(Initial, events);
      && PointsOf(s.referrals, userId) == 0
      && s.registry == EmptyRegistry
      && Withdraw(s.referrals, s.registry, userId, draw).reply == NeedMoreReferrals
      && Lookup(s.registry, adminId, Some(DecimalString(adminId))) == NoCodesYet
  {
    RunKeepsReachable(Initial, events);
    NumericLookupMisses(Run(Initial, events).referrals, userId);
  }
}
