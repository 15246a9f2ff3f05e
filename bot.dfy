/** The bot's handlers over its two module-level Maps, as methods of one object
    that owns them. Each handler takes as parameters what it reads from the
    Telegram update (the sender's id, the message text), the random draw and
    the configured admin id, and returns what it would reply or notify. */
module Bot {
  import opened Decimal
  import opened Tokens
  import opened Ledger

  class ReferralBot {
    /** `referrals`: referrer key to the ids of the users it referred. */
    var referrals: Referrals
    /** `withdrawRequests`: user id to that user's latest claim code ... */
    var withdrawRequests: map<int, string>
    /** ... and its keys in insertion order, the order `forEach` visits them. */
    var withdrawOrder: seq<int>

    ghost predicate Valid()
      reads this
    {
      WellFormed(Registry(withdrawRequests, withdrawOrder))
    }

    /** The ledger as a value. */
    function Snapshot(): State
      reads this
    {
      State(referrals, Registry(withdrawRequests, withdrawOrder))
    }

    /** Both Maps start empty. */
    constructor ()
      ensures Valid() && Snapshot() == Initial
    {
      referrals := map[];
      withdrawRequests := map[];
      withdrawOrder := [];
    }

    /** The /start command handler: user `userId` sent `text`. The result says
        whether the referrer was credited and, if so, the total it is notified of. */
    method Start(userId: int, text: string) returns (attribution: Attribution)
      requires Valid()
      modifies this
      ensures Valid()
      ensures Snapshot() == Step(old(Snapshot()), StartCommand(userId, text))
      ensures attribution == Attribute(old(referrals), userId, text).attribution
      ensures withdrawRequests == old(withdrawRequests) && withdrawOrder == old(withdrawOrder)
      ensures !attribution.Credited? ==> referrals == old(referrals)
      ensures attribution.Credited? ==>
        var k := Str(attribution.referrer);
        && k in referrals
        && referrals[k] == (if k in old(referrals) then old(referrals)[k] else []) + [userId]
        && attribution.total == |referrals[k]|
        && (forall k' :: k' in old(referrals) && k' != k ==> referrals[k'] == old(referrals)[k'])
    {
      var args := SplitOnSpaces(text);
      if |args| > 1 {
        var referrerId := args[1];
        if referrerId != DecimalString(userId) {
          var key := Str(referrerId);
          if key !in referrals {
            referrals := referrals[key := []];
          }
          if userId !in referrals[key] {
            referrals := referrals[key := referrals[key] + [userId]];
            attribution := Credited(referrerId, |referrals[key]|);
          } else {
            attribution := AlreadyListed(referrerId);
          }
        } else {
          attribution := SelfReferral;
        }
      } else {
        attribution := NoReferrer;
      }
    }

    /** The "mypoints" action: the points shown and whether the reply says
        that withdrawal is unlocked. */
    method MyPoints(userId: int) returns (points: nat, unlocked: bool)
      ensures points == PointsOf(referrals, userId)
      ensures unlocked <==> points >= MinWithdrawPoints
    {
      points := if Num(userId) in referrals then |referrals[Num(userId)]| else 0;
      unlocked := points >= MinWithdrawPoints;
    }

    /** The "withdraw" action of user `userId`, where `draw` is the integer
        `Math.floor(100000 + Math.random() * 900000)` came to. */
    method Withdraw(userId: int, draw: int) returns (reply: WithdrawReply)
      requires Valid()
      requires MinCode <= draw <= MaxCode
      modifies this
      ensures Valid()
      ensures Snapshot() == Step(old(Snapshot()), WithdrawAction(userId, draw))
      ensures reply == Ledger.Withdraw(old(referrals), old(Snapshot()).registry, userId, draw).reply
      ensures referrals == old(referrals)
      ensures reply.NeedMoreReferrals? <==> PointsOf(referrals, userId) < MinWithdrawPoints
      ensures reply.NeedMoreReferrals? ==>
        withdrawRequests == old(withdrawRequests) && withdrawOrder == old(withdrawOrder)
      ensures reply.Approved? ==>
        && withdrawRequests == old(withdrawRequests)[userId := reply.code]
        && |reply.code| == 6 && AllDigits(reply.code) && ValueOf(reply.code) == draw
    {
      var points := if Num(userId) in referrals then |referrals[Num(userId)]| else 0;
      if points < MinWithdrawPoints {
        reply := NeedMoreReferrals;
        return;
      }
      var uniqueCode := ClaimCode(draw);
      if userId !in withdrawRequests {
        withdrawOrder := withdrawOrder + [userId];
      }
      withdrawRequests := withdrawRequests[userId := uniqueCode];
      reply := Approved(uniqueCode);
    }

    /** The /lookupcodes command sent by `callerId`, with `adminId` the value of
        the ADMIN_ID environment variable (None when it is unset). */
    method LookupCodes(callerId: int, adminId: Option<string>) returns (reply: LookupReply)
      requires Valid()
      ensures reply == Lookup(Registry(withdrawRequests, withdrawOrder), callerId, adminId)
    {
      if adminId != Some(DecimalString(callerId)) {
        reply := AdminOnly;
        return;
      }
      if |withdrawRequests| == 0 {
        reply := NoCodesYet;
        return;
      }
      ghost var reg := Registry(withdrawRequests, withdrawOrder);
      var lines: seq<CodeLine> := [];
      var i := 0;
      while i < |withdrawOrder|
        invariant 0 <= i <= |withdrawOrder|
        invariant lines == Lines(reg)[..i]
      {
        var user := withdrawOrder[i];
        assert Lines(reg)[..i + 1] == Lines(reg)[..i] + [CodeLine(user, withdrawRequests[user])];
        lines := lines + [CodeLine(user, withdrawRequests[user])];
        i := i + 1;
      }
      assert lines == Lines(reg);
      reply := Codes(lines);
    }
  }

  /** A fresh bot; `joiner` opens the referral link of `inviter` (its start
      payload is the inviter's id); then `inviter` taps "mypoints". The
      inviter is notified of one referral, yet is shown 0 points, because
      the list is stored under the string key and read with the number. */
  method ReferralLinkScenario(inviter: int, joiner: int) returns (notified: Attribution, shown: nat)
    requires inviter != joiner
    ensures notified == Credited(DecimalString(inviter), 1)
    ensures shown == 0
  {
    var bot := new ReferralBot();
    FollowReferralLink(map[], inviter, joiner);
    notified := bot.Start(joiner, "/start " + DecimalString(inviter));
    var unlocked;
    shown, unlocked := bot.MyPoints(inviter);
  }
}
