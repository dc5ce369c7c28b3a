/**
 * The points ledger of the loyalty demo: the balance, the transaction log,
 * the double-points window, the per-day reward claims and the redemption keys.
 *
 * The browser store becomes the fields of class `Ledger`; each of its methods
 * is proved to move the store exactly as a pure transition on `LedgerState`
 * says, and the properties of the ledger are proved about those transitions.
 * The clock (`now` in milliseconds, `today` as a date stamp) and the random
 * draws (the transaction-id suffix, the twelve key characters) are parameters.
 */
module Points {
  import opened Wrappers
  import opened Text

  /** How many transactions the store keeps, newest first. */
  const MaxTransactions: nat := 24
  /** The earn reason that marks a scan; only it is doubled. */
  const ScanReason := "QR-Scan"
  /** The reason recorded for a spend whose reason is empty. */
  const SpendReason := "Einlösen"
  /** Default length of a double-points window: one hour in milliseconds. */
  const DefaultBoostMs := 60 * 60 * 1000
  /** The reward whose redemption opens a double-points window. */
  const DoublePointsId := "double-points"
  /** Redemption-key characters: no `0`, `O`, `1` or `I`. */
  const KeyAlphabet := "ABCDEFGHJKLMNPQRSTUVWXYZ23456789"
  const KeyPrefix := "LC-"
  /** Length of a redemption key: the prefix and three dash-separated blocks of four. */
  const KeyLength := 17

  datatype Kind = Earn | Spend

  /** One entry of the log; `time` is the clock reading the entry was stamped with. */
  datatype Transaction = Transaction(
    id: string, kind: Kind, amount: int, reason: string, key: Option<string>, time: int)

  /** The stored daily-claim record: the day it belongs to and which rewards were claimed. */
  datatype DailyState = DailyState(date: string, claims: map<string, bool>)

  datatype Reward = Reward(id: string, name: string, cost: int)

  /** Everything the ledger keeps in the store; an absent key reads as the constructor's value. */
  datatype LedgerState = LedgerState(
    balance: nat, transactions: seq<Transaction>, doubleUntil: int, daily: Option<DailyState>)

  /** What `deductPoints` returns. */
  datatype DeductResult = DeductResult(success: bool, key: Option<string>)

  /** The reward catalog. */
  const Rewards: seq<Reward> := [
    Reward("coffee", "Gratis Kaffee", 15),
    Reward("voucher", "Gutschein 5€ für teilnehmde Shops", 25),
    Reward(DoublePointsId, "Doppelte Punkte 1 std.", 500)
  ]

  /** `Math.max(0, v)`: what `setBalance` writes. */
  function Max0(v: int): (r: nat)
    ensures r >= v && (v >= 0 ==> r == v) && (v < 0 ==> r == 0)
  {
    if v < 0 then 0 else v
  }

  // ----- transaction log -----

  /**
   * `log'` is `log` with `entry` put in front and cut to the first 24: the
   * entry first, the earlier entries after it in their old order.
   */
  ghost predicate Prepended(log': seq<Transaction>, log: seq<Transaction>, entry: Transaction) {
    && |log'| == (if |log| < MaxTransactions then |log| + 1 else MaxTransactions)
    && log'[0] == entry
    && forall i :: 1 <= i < |log'| ==> log'[i] == log[i - 1]
  }

  /** The log after `addTransaction`. */
  function Logged(log: seq<Transaction>, entry: Transaction): (r: seq<Transaction>)
    ensures Prepended(r, log, entry)
    ensures |r| <= MaxTransactions
  {
    var all := [entry] + log;
    if |all| <= MaxTransactions then all else all[..MaxTransactions]
  }

  /** Logging into a cut log is cutting the longer log. */
  lemma LoggedNewest(rest: seq<Transaction>, entry: Transaction)
    ensures Logged(Newest(rest), entry) == Newest([entry] + rest)
  {
    var l, r := Logged(Newest(rest), entry), Newest([entry] + rest);
    assert |l| == |r|;
    forall i | 0 <= i < |l| ensures l[i] == r[i] {
      if i > 0 {
        assert l[i] == Newest(rest)[i - 1];
      }
    }
  }

  /** The log after logging `entries`, oldest first. */
  function LoggedAll(log: seq<Transaction>, entries: seq<Transaction>): seq<Transaction>
  {
    if entries == [] then log
    else Logged(LoggedAll(log, entries[..|entries| - 1]), entries[|entries| - 1])
  }

  function Reverse<T>(s: seq<T>): (r: seq<T>)
    ensures |r| == |s|
    ensures forall i :: 0 <= i < |s| ==> r[i] == s[|s| - 1 - i]
  {
    if s == [] then [] else [s[|s| - 1]] + Reverse(s[..|s| - 1])
  }

  /** The first (at most) 24 entries of `s`. */
  function Newest(s: seq<Transaction>): seq<Transaction>
  {
    if |s| <= MaxTransactions then s else s[..MaxTransactions]
  }

  /**
   * Logging any number of entries keeps exactly the 24 most recent ones
   * (counting the earlier log), newest first.
   */
  lemma {:induction false} LoggedAllKeepsNewest(log: seq<Transaction>, entries: seq<Transaction>)
    requires |log| <= MaxTransactions
    ensures LoggedAll(log, entries) == Newest(Reverse(entries) + log)
  {
    if entries != [] {
      var front := entries[..|entries| - 1];
      var last := entries[|entries| - 1];
      var rest := Reverse(front) + log;
      calc {
        LoggedAll(log, entries);
        Logged(LoggedAll(log, front), last);
        { LoggedAllKeepsNewest(log, front); }
        Logged(Newest(rest), last);
        { LoggedNewest(rest, last); }
        Newest([last] + rest);
        { assert [last] + rest == ([last] + Reverse(front)) + log; }
        Newest(Reverse(entries) + log);
      }
    }
  }

  /** After 24 or more operations the log holds exactly the last 24, newest first. */
  lemma LogAfterManyOperations(log: seq<Transaction>, entries: seq<Transaction>)
    requires |log| <= MaxTransactions && |entries| >= MaxTransactions
    ensures |LoggedAll(log, entries)| == MaxTransactions
    ensures forall i :: 0 <= i < MaxTransactions ==>
      LoggedAll(log, entries)[i] == entries[|entries| - 1 - i]
  {
    LoggedAllKeepsNewest(log, entries);
  }

  // ----- redemption keys -----

  /** Twelve random indices into the key alphabet: what `Math.random` draws for one key. */
  predicate ValidKeyDraws(draws: seq<nat>) {
    |draws| == 12 && forall i :: 0 <= i < 12 ==> draws[i] < |KeyAlphabet|
  }

  /** One block of four key characters. */
  function KeyBlock(draws: seq<nat>): (block: string)
    requires |draws| == 4 && forall i :: 0 <= i < 4 ==> draws[i] < |KeyAlphabet|
    ensures |block| == 4 && forall j :: 0 <= j < 4 ==> block[j] == KeyAlphabet[draws[j]]
  {
    [KeyAlphabet[draws[0]], KeyAlphabet[draws[1]], KeyAlphabet[draws[2]], KeyAlphabet[draws[3]]]
  }

  /** `generateKey`: `LC-` and three blocks of four alphabet characters joined by `-`. */
  function GenerateKey(draws: seq<nat>): (key: string)
    requires ValidKeyDraws(draws)
    ensures |key| == KeyLength
    ensures key[..3] == KeyPrefix && key[7] == '-' && key[12] == '-'
    ensures forall i :: 3 <= i < 7 ==> key[i] == KeyAlphabet[draws[i - 3]]
    ensures forall i :: 8 <= i < 12 ==> key[i] == KeyAlphabet[draws[i - 4]]
    ensures forall i :: 13 <= i < 17 ==> key[i] == KeyAlphabet[draws[i - 5]]
  {
    KeyPrefix + KeyBlock(draws[..4]) + "-" + KeyBlock(draws[4..8]) + "-" + KeyBlock(draws[8..])
  }

  /** The key alphabet leaves out the look-alikes `0`, `O`, `1` and `I`. */
  lemma AlphabetIsUnambiguous()
    ensures forall j :: 0 <= j < |KeyAlphabet| ==> KeyAlphabet[j] !in {'0', 'O', '1', 'I'}
  {
  }

  /**
   * Every character of a key after the prefix is a dash or an alphabet
   * character, and no character of a key is `0`, `O`, `1` or `I`.
   */
  lemma KeyIsUnambiguous(draws: seq<nat>)
    requires ValidKeyDraws(draws)
    ensures forall i :: 3 <= i < KeyLength ==> GenerateKey(draws)[i] == '-' || GenerateKey(draws)[i] in KeyAlphabet
    ensures forall i :: 0 <= i < KeyLength ==> GenerateKey(draws)[i] !in {'0', 'O', '1', 'I'}
  {
    var key := GenerateKey(draws);
    AlphabetIsUnambiguous();
    forall i | 3 <= i < KeyLength
      ensures key[i] == '-' || key[i] in KeyAlphabet
    {
    }
    assert key[..3] == "LC-";
    assert key[0] == 'L' && key[1] == 'C' && key[2] == '-';
  }

  // ----- double points -----

  /** `isDoublePointsActive`: the window is open strictly before its end. */
  predicate IsDoublePointsActive(now: int, until: int) {
    now < until
  }

  /** `applyDoublePoints`: a scan earns twice while the window is open. */
  function ApplyDoublePoints(amount: int, reason: string, now: int, until: int): int {
    if reason != ScanReason then amount
    else if !IsDoublePointsActive(now, until) then amount
    else amount * 2
  }

  /** The boosted amount differs from the scanned one exactly for a non-zero scan inside the window. */
  lemma BoostDoublesOnlyScansInWindow(amount: int, reason: string, now: int, until: int)
    requires amount != 0
    ensures ApplyDoublePoints(amount, reason, now, until) != amount
      <==> reason == ScanReason && now < until
    ensures ApplyDoublePoints(amount, reason, now, until) == amount
      || ApplyDoublePoints(amount, reason, now, until) == 2 * amount
  {
  }

  // ----- daily claims -----

  /** `getDailyState`: the stored record if it is today's, otherwise a fresh one for today. */
  function DailyStateOn(stored: Option<DailyState>, today: string): (d: DailyState)
    ensures d.date == today
    ensures (stored.None? || stored.value.date != today) ==> d.claims == map[]
    ensures stored.Some? && stored.value.date == today ==> d == stored.value
  {
    if stored.None? || stored.value.date != today then DailyState(today, map[])
    else stored.value
  }

  /** `hasClaimedToday`. */
  predicate HasClaimedToday(stored: Option<DailyState>, today: string, rewardId: string) {
    var d := DailyStateOn(stored, today);
    rewardId in d.claims && d.claims[rewardId]
  }

  /** The record `markClaimedToday` stores. */
  function MarkedClaimed(stored: Option<DailyState>, today: string, rewardId: string): DailyState {
    var d := DailyStateOn(stored, today);
    DailyState(d.date, d.claims[rewardId := true])
  }

  /**
   * After marking a reward: it reads as claimed on the same day, nothing reads
   * as claimed on any other day, and every other reward reads as before.
   */
  lemma MarkClaimedEffect(stored: Option<DailyState>, today: string, rewardId: string)
    ensures HasClaimedToday(Some(MarkedClaimed(stored, today, rewardId)), today, rewardId)
    ensures forall other :: other != rewardId ==>
      HasClaimedToday(Some(MarkedClaimed(stored, today, rewardId)), today, other)
        == HasClaimedToday(stored, today, other)
    ensures forall day, any :: day != today ==>
      !HasClaimedToday(Some(MarkedClaimed(stored, today, rewardId)), day, any)
  {
  }

  // ----- ledger transitions -----

  /** `addPoints` falls back to the scan reason when given an empty one. */
  function EarnReason(reason: string): (r: string)
    ensures r != ""
    ensures r == ScanReason <==> reason == "" || reason == ScanReason
  {
    if reason == "" then ScanReason else reason
  }

  /** `deductPoints` falls back to the generic spend reason when given an empty one. */
  function SpendReasonFor(reason: string): (r: string)
    ensures r != "" && (reason != "" ==> r == reason)
  {
    if reason == "" then SpendReason else reason
  }

  /** The random suffix of a transaction id: `Math.floor(Math.random() * 1000)`. */
  type TxDraw = d: nat | d < 1000

  /** The id of a transaction: the clock reading, a dash and a random number below 1000. */
  function TxId(now: int, draw: TxDraw): string {
    IntToString(now) + "-" + IntToString(draw)
  }

  /** `addPoints(amount, reason)` as a transition of the store. */
  function Earned(s: LedgerState, amount: int, reason: string, now: int, draw: TxDraw): (t: LedgerState)
    ensures var why := EarnReason(reason);
      var boosted := ApplyDoublePoints(amount, why, now, s.doubleUntil);
      && Prepended(t.transactions, s.transactions, Transaction(TxId(now, draw), Earn, boosted, why, None, now))
      && t.balance == Max0(s.balance + boosted)
      && (s.balance + boosted >= 0 ==> t.balance - s.balance == boosted)
      && t.doubleUntil == s.doubleUntil && t.daily == s.daily
  {
    var why := EarnReason(reason);
    var boosted := ApplyDoublePoints(amount, why, now, s.doubleUntil);
    s.(transactions := Logged(s.transactions, Transaction(TxId(now, draw), Earn, boosted, why, None, now)),
       balance := Max0(s.balance + boosted))
  }

  /** `deductPoints(amount, reason, {includeKey})` as a transition of the store and its result. */
  function Deducted(s: LedgerState, amount: int, reason: string, includeKey: bool,
                    now: int, draw: TxDraw, keyDraws: seq<nat>): (r: (LedgerState, DeductResult))
    requires includeKey ==> ValidKeyDraws(keyDraws)
    ensures s.balance < amount ==> r == (s, DeductResult(false, None))
    ensures s.balance >= amount ==>
      && r.1.success
      && (r.1.key.Some? <==> includeKey)
      && (includeKey ==> r.1.key == Some(GenerateKey(keyDraws)))
      && r.0.balance == s.balance - amount
      && Prepended(r.0.transactions, s.transactions,
                   Transaction(TxId(now, draw), Spend, amount, SpendReasonFor(reason), r.1.key, now))
      && r.0.doubleUntil == s.doubleUntil && r.0.daily == s.daily
  {
    if s.balance < amount then (s, DeductResult(false, None))
    else
      var key := if includeKey then Some(GenerateKey(keyDraws)) else None;
      var entry := Transaction(TxId(now, draw), Spend, amount, SpendReasonFor(reason), key, now);
      (s.(transactions := Logged(s.transactions, entry), balance := Max0(s.balance - amount)),
       DeductResult(true, key))
  }

  /** The state and result of a deduction the balance covers, spelled out for the method that performs it. */
  lemma DeductedAffordable(s: LedgerState, amount: int, reason: string, includeKey: bool,
                           now: int, draw: TxDraw, keyDraws: seq<nat>)
    requires includeKey ==> ValidKeyDraws(keyDraws)
    requires s.balance >= amount
    ensures Deducted(s, amount, reason, includeKey, now, draw, keyDraws).1
      == DeductResult(true, if includeKey then Some(GenerateKey(keyDraws)) else None)
    ensures Deducted(s, amount, reason, includeKey, now, draw, keyDraws).0
      == s.(transactions := Logged(s.transactions,
                                   Transaction(TxId(now, draw), Spend, amount, SpendReasonFor(reason),
                                               if includeKey then Some(GenerateKey(keyDraws)) else None, now)),
            balance := Max0(s.balance - amount))
  {
  }

  /** `activateDoublePoints(duration)`: the window now ends at `now + duration`, whatever it was. */
  function BoostActivated(s: LedgerState, now: int, duration: int): (t: LedgerState)
    ensures t.doubleUntil == now + duration
    ensures IsDoublePointsActive(now, t.doubleUntil) <==> duration > 0
    ensures t.balance == s.balance && t.transactions == s.transactions && t.daily == s.daily
  {
    s.(doubleUntil := now + duration)
  }

  /** Two activations leave the second window; they do not add up. */
  lemma BoostDoesNotStack(s: LedgerState, now1: int, d1: int, now2: int, d2: int)
    ensures BoostActivated(BoostActivated(s, now1, d1), now2, d2) == BoostActivated(s, now2, d2)
  {
  }

  /** `markClaimedToday(rewardId)` as a transition of the store. */
  function ClaimMarked(s: LedgerState, rewardId: string, today: string): (t: LedgerState)
    ensures HasClaimedToday(t.daily, today, rewardId)
    ensures t.balance == s.balance && t.transactions == s.transactions && t.doubleUntil == s.doubleUntil
  {
    MarkClaimedEffect(s.daily, today, rewardId);
    s.(daily := Some(MarkedClaimed(s.daily, today, rewardId)))
  }

  /** The click handler of a reward button, as a transition of the store and the deduct result. */
  function RewardRedeemed(s: LedgerState, reward: Reward, today: string, now: int, draw: TxDraw,
                          keyDraws: seq<nat>): (r: (LedgerState, DeductResult))
    requires ValidKeyDraws(keyDraws)
  {
    if HasClaimedToday(s.daily, today, reward.id) then (s, DeductResult(false, None))
    else
      var (t, result) := Deducted(s, reward.cost, reward.name, true, now, draw, keyDraws);
      if !result.success then (t, result)
      else
        var u := if reward.id == DoublePointsId then BoostActivated(t, now, DefaultBoostMs) else t;
        (ClaimMarked(u, reward.id, today), result)
  }

  /**
   * A reward already claimed today is a no-op, and so is one the balance does
   * not cover; otherwise the cost is deducted, a key is issued and stored on
   * the spend entry, the reward is marked claimed for today, and the
   * double-points window opens only for the double-points reward.
   */
  lemma RewardRedeemedEffect(s: LedgerState, reward: Reward, today: string, now: int, draw: TxDraw,
                             keyDraws: seq<nat>)
    requires ValidKeyDraws(keyDraws)
    ensures var r := RewardRedeemed(s, reward, today, now, draw, keyDraws);
      && (HasClaimedToday(s.daily, today, reward.id) || s.balance < reward.cost ==>
            r == (s, DeductResult(false, None)))
      && (!HasClaimedToday(s.daily, today, reward.id) && s.balance >= reward.cost ==>
            && r.1 == DeductResult(true, Some(GenerateKey(keyDraws)))
            && r.0.balance == s.balance - reward.cost
            && r.0.transactions[0].key == r.1.key
            && HasClaimedToday(r.0.daily, today, reward.id)
            && r.0.doubleUntil == (if reward.id == DoublePointsId then now + DefaultBoostMs else s.doubleUntil))
  {
    if !HasClaimedToday(s.daily, today, reward.id) && s.balance >= reward.cost {
      var (t, result) := Deducted(s, reward.cost, reward.name, true, now, draw, keyDraws);
      assert result.success && t.balance == s.balance - reward.cost;
      assert t.transactions[0].key == result.key;
      var u := if reward.id == DoublePointsId then BoostActivated(t, now, DefaultBoostMs) else t;
      assert ClaimMarked(u, reward.id, today).transactions == t.transactions;
    }
  }

  /** A reward redeemed today cannot be redeemed again the same day; the second click changes nothing. */
  lemma RedeemOncePerDay(s: LedgerState, reward: Reward, today: string, now: int, draw: TxDraw,
                         keyDraws: seq<nat>, now2: int, draw2: TxDraw, keyDraws2: seq<nat>)
    requires ValidKeyDraws(keyDraws) && ValidKeyDraws(keyDraws2)
    requires RewardRedeemed(s, reward, today, now, draw, keyDraws).1.success
    ensures var t := RewardRedeemed(s, reward, today, now, draw, keyDraws).0;
      RewardRedeemed(t, reward, today, now2, draw2, keyDraws2) == (t, DeductResult(false, None))
  {
    RewardRedeemedEffect(s, reward, today, now, draw, keyDraws);
  }

  /** The store after the demo reset: every ledger key is gone. */
  function Cleared(): (s: LedgerState)
    ensures s.balance == 0 && s.transactions == [] && s.daily.None?
    ensures forall now :: now >= 0 ==> !IsDoublePointsActive(now, s.doubleUntil)
  {
    LedgerState(0, [], 0, None)
  }

  /** The store as a class: the methods are the source's read-modify-write cycles. */
  class Ledger {
    var balance: nat
    var transactions: seq<Transaction>
    var doubleUntil: int
    var daily: Option<DailyState>

    ghost predicate Valid()
      reads this
    {
      |transactions| <= MaxTransactions
    }

    function State(): LedgerState
      reads this
    {
      LedgerState(balance, transactions, doubleUntil, daily)
    }

    /** An empty store: every key absent. */
    constructor ()
      ensures Valid() && State() == Cleared()
    {
      balance, transactions, doubleUntil, daily := 0, [], 0, None;
    }

    /** `getBalance`. */
    function GetBalance(): (b: int)
      reads this
      ensures b >= 0
    {
      balance
    }

    /** `setBalance`: the balance is clamped to zero on write. */
    method SetBalance(value: int)
      modifies this`balance
      ensures balance == Max0(value)
    {
      balance := if value < 0 then 0 else value;
    }

    /** `addTransaction`: load, put the entry in front, keep the first 24, save. */
    method AddTransaction(kind: Kind, amount: int, reason: string, key: Option<string>, now: int, draw: TxDraw)
      requires Valid()
      modifies this`transactions
      ensures Valid()
      ensures transactions == Logged(old(transactions), Transaction(TxId(now, draw), kind, amount, reason, key, now))
    {
      var log := transactions;
      var entry := Transaction(TxId(now, draw), kind, amount, reason, key, now);
      log := [entry] + log;
      if |log| > MaxTransactions {
        log := log[..MaxTransactions];
      }
      transactions := log;
    }

    /** `addPoints`. */
    method AddPoints(amount: int, reason: string, now: int, draw: TxDraw)
      requires Valid()
      modifies this
      ensures Valid()
      ensures State() == Earned(old(State()), amount, reason, now, draw)
    {
      var why := if reason == "" then ScanReason else reason;
      var boosted := ApplyDoublePoints(amount, why, now, doubleUntil);
      AddTransaction(Earn, boosted, why, None, now, draw);
      var newBalance := GetBalance() + boosted;
      SetBalance(newBalance);
    }

    /** `deductPoints`: rejected without any change when the balance is too low. */
    method DeductPoints(amount: int, reason: string, includeKey: bool, now: int, draw: TxDraw, keyDraws: seq<nat>)
      returns (result: DeductResult)
      requires Valid()
      requires includeKey ==> ValidKeyDraws(keyDraws)
      modifies this
      ensures Valid()
      ensures (State(), result) == Deducted(old(State()), amount, reason, includeKey, now, draw, keyDraws)
    {
      var current := GetBalance();
      if current < amount {
        return DeductResult(false, None);
      }
      ghost var before := State();
      DeductedAffordable(before, amount, reason, includeKey, now, draw, keyDraws);
      var newBalance := current - amount;
      var key := if includeKey then Some(GenerateKey(keyDraws)) else None;
      var why := if reason == "" then SpendReason else reason;
      AddTransaction(Spend, amount, why, key, now, draw);
      SetBalance(newBalance);
      result := DeductResult(true, key);
      assert State() == before.(transactions := transactions, balance := Max0(newBalance));
    }

    /** `isDoublePointsActive`. */
    predicate DoublePointsActive(now: int)
      reads this
    {
      IsDoublePointsActive(now, doubleUntil)
    }

    /** `activateDoublePoints`: overwrites the end of the window. */
    method ActivateDoublePoints(now: int, durationMs: int)
      requires Valid()
      modifies this`doubleUntil
      ensures Valid()
      ensures State() == BoostActivated(old(State()), now, durationMs)
    {
      doubleUntil := now + durationMs;
    }

    /** `hasClaimedToday`. */
    predicate ClaimedToday(rewardId: string, today: string)
      reads this
    {
      HasClaimedToday(daily, today, rewardId)
    }

    /** `markClaimedToday`: roll the record over to today if needed, then set the claim. */
    method MarkClaimedToday(rewardId: string, today: string)
      requires Valid()
      modifies this`daily
      ensures Valid()
      ensures State() == ClaimMarked(old(State()), rewardId, today)
    {
      var state := DailyStateOn(daily, today);
      state := state.(claims := state.claims[rewardId := true]);
      daily := Some(state);
    }

    /** The click handler of a reward button. */
    method RedeemReward(reward: Reward, today: string, now: int, draw: TxDraw, keyDraws: seq<nat>)
      returns (result: DeductResult)
      requires Valid() && ValidKeyDraws(keyDraws)
      modifies this
      ensures Valid()
      ensures (State(), result) == RewardRedeemed(old(State()), reward, today, now, draw, keyDraws)
    {
      if ClaimedToday(reward.id, today) {
        return DeductResult(false, None);
      }
      result := DeductPoints(reward.cost, reward.name, true, now, draw, keyDraws);
      if result.success {
        if reward.id == DoublePointsId {
          ActivateDoublePoints(now, DefaultBoostMs);
        }
        MarkClaimedToday(reward.id, today);
      }
    }

    /** The ledger keys `handleReset` removes; the log is then saved empty. */
    method Reset()
      modifies this
      ensures Valid() && State() == Cleared()
    {
      balance := 0;
      doubleUntil := 0;
      daily := None;
      transactions := [];
    }
  }

  /** The basic redeem scenario: 20 points, a 15-point coffee with a key, 5 points left. */
  lemma BasicRedeemScenario(s: LedgerState, now: int, draw: TxDraw, keyDraws: seq<nat>)
    requires s.balance == 20 && ValidKeyDraws(keyDraws)
    ensures var (t, result) := Deducted(s, 15, "Kaffee", true, now, draw, keyDraws);
      && result.success && t.balance == 5
      && result.key == Some(GenerateKey(keyDraws))
      && t.transactions[0].kind == Spend && t.transactions[0].amount == 15
      && t.transactions[0].reason == "Kaffee" && t.transactions[0].key == result.key
  {
  }

  /** The boosted scan scenario: inside the window a 10-point scan adds and records 20. */
  lemma BoostedScanScenario(s: LedgerState, now: int, draw: TxDraw)
    requires now < s.doubleUntil
    ensures Earned(s, 10, "", now, draw).balance == s.balance + 20
    ensures Earned(s, 10, "", now, draw).transactions[0].amount == 20
  {
  }
}
