/** The account store shared by the two terminals and the join and leave
    transitions (`join_queue` in modified-entrance-scanner.py, `exit_queue` in
    exit-scanner.py). The store is an in-memory value; server timestamps are
    left out. */
module QueueStore {
  import opened Records

  /** Everything a terminal can change or observe: the `users`, per-barangay
      `queue`, per-user `queueing-transactions` and global `queueing_history`
      collections, the `dashboard-counts/terminal-fee` document, and the
      signals sent to the actuator so far. */
  datatype State = State(
    users: map<string, Account>,
    queue: map<QueueKey, QueueEntry>,
    transactions: map<string, seq<Txn>>,
    history: seq<HistoryRow>,
    feeDoc: Option<map<string, int>>,
    feedback: seq<Signal>)

  /** A document read: the record stored under `uid`, if any. */
  function Lookup(users: map<string, Account>, uid: string): (r: Option<Account>)
    ensures r.Some? <==> uid in users
    ensures r.Some? ==> r.value == users[uid]
  {
    if uid in users then Some(users[uid]) else None
  }

  /** A user's transaction rows (an absent sub-collection reads as empty). */
  function TxnsOf(transactions: map<string, seq<Txn>>, uid: string): seq<Txn>
  {
    if uid in transactions then transactions[uid] else []
  }

  /** `fetch_terminal_fee`: None when the fee document or its "fee" field is missing. */
  function TerminalFee(feeDoc: Option<map<string, int>>): (r: Option<int>)
    ensures r.Some? <==> feeDoc.Some? && "fee" in feeDoc.value
    ensures r.Some? ==> r.value == feeDoc.value["fee"]
  {
    match feeDoc
    case None => None
    case Some(doc) => if "fee" in doc then Some(doc["fee"]) else None
  }

  /** One `trigger_buzzer_on_esp32` request and nothing else. */
  function Buzz(st: State): State
  {
    st.(feedback := st.feedback + [Buzzer])
  }

  /** The store's invariants: each user document's uid is its id, no balance is
      negative, a queue document exists exactly for the users in the queue, under
      their barangay, and it names its user. */
  ghost predicate ValidState(st: State)
  {
    && (forall id :: id in st.users ==> st.users[id].uid == id)
    && (forall id :: id in st.users ==> st.users[id].balance >= 0)
    && (forall id :: id in st.users ==>
          (st.users[id].inQueue <==> (BarangayOf(st.users[id]), id) in st.queue))
    && (forall k :: k in st.queue ==>
          k.1 in st.users && BarangayOf(st.users[k.1]) == k.0 && st.queue[k].uid == k.1)
  }

  /** The snapshot handed to a transition names the barangay the store holds
      for that user (it does when it was just read from this store). */
  predicate Agrees(st: State, snapshot: Account)
  {
    snapshot.uid in st.users ==> BarangayOf(st.users[snapshot.uid]) == BarangayOf(snapshot)
  }

  // ---------------------------------------------------------------- join

  datatype JoinOutcome =
    | JoinUserMissing      // re-read found no document
    | FeeMissing           // `user_balance - terminal_fee` raised on a None fee
    | AlreadyInQueue
    | InsufficientBalance
    | JoinCommitFailed     // the batch commit raised
    | Joined

  /** The order in which `join_queue` examines the re-read document and the fee. */
  function JoinDecision(reread: Option<Account>, fee: Option<int>, commitOk: bool): (r: JoinOutcome)
    ensures reread.None? ==> r == JoinUserMissing
    ensures reread.Some? && fee.None? ==> r == FeeMissing
    ensures reread.Some? && fee.Some? && reread.value.inQueue ==> r == AlreadyInQueue
    ensures r == InsufficientBalance <==>
              reread.Some? && fee.Some? && !reread.value.inQueue && reread.value.balance < fee.value
    ensures r == Joined <==>
              reread.Some? && fee.Some? && !reread.value.inQueue && reread.value.balance >= fee.value && commitOk
    ensures r == JoinCommitFailed <==>
              reread.Some? && fee.Some? && !reread.value.inQueue && reread.value.balance >= fee.value && !commitOk
  {
    if reread.None? then JoinUserMissing
    else if fee.None? then FeeMissing
    else if reread.value.inQueue then AlreadyInQueue
    else if reread.value.balance < fee.value then InsufficientBalance
    else if !commitOk then JoinCommitFailed
    else Joined
  }

  /** The entry terminal only ever buzzes; the exception paths send nothing. */
  function JoinSignals(o: JoinOutcome): (r: seq<Signal>)
    ensures forall i :: 0 <= i < |r| ==> r[i] == Buzzer
    ensures |r| <= 1
    ensures r == [] <==> o == FeeMissing || o == JoinCommitFailed
  {
    match o
    case FeeMissing => []
    case JoinCommitFailed => []
    case _ => [Buzzer]
  }

  function JoinOutcomeIn(st: State, snapshot: Account, commitOk: bool): JoinOutcome
  {
    JoinDecision(Lookup(st.users, snapshot.uid), TerminalFee(st.feeDoc), commitOk)
  }

  /** The account after a successful join: the fee is deducted and it is in the queue. */
  function Enqueued(a: Account, fee: int): Account
  {
    a.(balance := a.balance - fee, inQueue := true)
  }

  /** The state after `join_queue(snapshot)`: on success the one batch of four
      writes (user update, queue document, transaction row, history row) takes
      effect; otherwise no write does. */
  function AfterJoin(st: State, snapshot: Account, commitOk: bool): (r: State)
    ensures r.feeDoc == st.feeDoc
    ensures r.feedback == st.feedback + JoinSignals(JoinOutcomeIn(st, snapshot, commitOk))
    ensures r.users.Keys == st.users.Keys
    ensures forall u :: u != snapshot.uid ==> Lookup(r.users, u) == Lookup(st.users, u)
    ensures |r.history| == |st.history| + (if JoinOutcomeIn(st, snapshot, commitOk) == Joined then 1 else 0)
    ensures r.history[..|st.history|] == st.history
  {
    var o := JoinOutcomeIn(st, snapshot, commitOk);
    var signalled := st.(feedback := st.feedback + JoinSignals(o));
    if o != Joined then signalled
    else
      var uid, brgy := snapshot.uid, BarangayOf(snapshot);
      var a, fee := st.users[uid], TerminalFee(st.feeDoc).value;
      signalled.(
        users := st.users[uid := Enqueued(a, fee)],
        queue := st.queue[(brgy, uid) := QueueEntry(uid, a.name, a.tricycleNumber, true)],
        transactions := st.transactions[uid := TxnsOf(st.transactions, uid) + [Txn(fee, QueueEntryDescription)]],
        history := st.history + [HistoryRow(uid, a.name, brgy, Join, Some(fee))])
  }

  /** A rejected or failed join writes nothing and only signals. */
  lemma JoinRejectedWritesNothing(st: State, snapshot: Account, commitOk: bool)
    requires JoinOutcomeIn(st, snapshot, commitOk) != Joined
    ensures var r := AfterJoin(st, snapshot, commitOk);
      && r.users == st.users && r.queue == st.queue
      && r.transactions == st.transactions && r.history == st.history
      && r.feeDoc == st.feeDoc
      && r.feedback == st.feedback + JoinSignals(JoinOutcomeIn(st, snapshot, commitOk))
    ensures var o, r := JoinOutcomeIn(st, snapshot, commitOk), AfterJoin(st, snapshot, commitOk);
      && (o in {JoinUserMissing, AlreadyInQueue, InsufficientBalance} ==> r.feedback == st.feedback + [Buzzer])
      && (o in {FeeMissing, JoinCommitFailed} ==> r.feedback == st.feedback)
  {
  }

  /** A successful join from balance B with fee F leaves B - F >= 0, puts the
      user in the queue, creates the queue document, and appends exactly one
      transaction row and one history row; nothing else changes. */
  lemma JoinSuccessEffect(st: State, snapshot: Account, commitOk: bool)
    requires JoinOutcomeIn(st, snapshot, commitOk) == Joined
    ensures snapshot.uid in st.users && TerminalFee(st.feeDoc).Some?
    ensures var r, uid := AfterJoin(st, snapshot, commitOk), snapshot.uid;
      var a, fee, key := st.users[uid], TerminalFee(st.feeDoc).value, (BarangayOf(snapshot), snapshot.uid);
      && a.balance >= fee && !a.inQueue
      && uid in r.users
      && r.users[uid].balance == a.balance - fee >= 0
      && r.users[uid].inQueue
      && r.users[uid] == a.(balance := r.users[uid].balance, inQueue := true)
      && (forall u :: u != uid ==> Lookup(r.users, u) == Lookup(st.users, u))
      && key in r.queue && r.queue[key] == QueueEntry(uid, a.name, a.tricycleNumber, true)
      && (forall k :: k != key ==> (k in r.queue <==> k in st.queue) && (k in st.queue ==> r.queue[k] == st.queue[k]))
      && TxnsOf(r.transactions, uid) == TxnsOf(st.transactions, uid) + [Txn(fee, QueueEntryDescription)]
      && (forall u :: u != uid ==> TxnsOf(r.transactions, u) == TxnsOf(st.transactions, u))
      && r.history == st.history + [HistoryRow(uid, a.name, BarangayOf(snapshot), Join, Some(fee))]
      && r.feedback == st.feedback + [Buzzer]
      && r.feeDoc == st.feeDoc
  {
  }

  lemma JoinPreservesValid(st: State, snapshot: Account, commitOk: bool)
    requires ValidState(st) && Agrees(st, snapshot)
    ensures ValidState(AfterJoin(st, snapshot, commitOk))
  {
  }

  // ---------------------------------------------------------------- exit

  datatype ExitOutcome =
    | ExitUserMissing      // re-read found no document
    | NotInQueue
    | ExitCommitFailed     // the batch commit raised after the direct writes
    | Left

  function ExitDecision(reread: Option<Account>, commitOk: bool): (r: ExitOutcome)
    ensures r == ExitUserMissing <==> reread.None?
    ensures r == NotInQueue <==> reread.Some? && !reread.value.inQueue
    ensures r == Left <==> reread.Some? && reread.value.inQueue && commitOk
  {
    if reread.None? then ExitUserMissing
    else if !reread.value.inQueue then NotInQueue
    else if !commitOk then ExitCommitFailed
    else Left
  }

  /** Red and buzzer on a rejection, green and buzzer on success, red alone from
      the exception handler. */
  function ExitSignals(o: ExitOutcome): (r: seq<Signal>)
    ensures |r| >= 1
    ensures r[0] == if o == Left then GreenLed else RedLed
    ensures (Buzzer in r) <==> o != ExitCommitFailed
  {
    match o
    case Left => [GreenLed, Buzzer]
    case ExitCommitFailed => [RedLed]
    case _ => [RedLed, Buzzer]
  }

  function ExitOutcomeIn(st: State, snapshot: Account, commitOk: bool): ExitOutcome
  {
    ExitDecision(Lookup(st.users, snapshot.uid), commitOk)
  }

  /** The state after `exit_queue(snapshot)`. The transaction and history rows
      are written directly, before the batch (user update, queue delete) is
      committed, so they are written whenever the user is found in the queue,
      whether or not the commit then succeeds. */
  function AfterExit(st: State, snapshot: Account, commitOk: bool): (r: State)
    ensures r.feeDoc == st.feeDoc
    ensures r.feedback == st.feedback + ExitSignals(ExitOutcomeIn(st, snapshot, commitOk))
    ensures r.users.Keys == st.users.Keys
    ensures forall u :: u in st.users ==> r.users[u].balance == st.users[u].balance
    ensures forall u :: u != snapshot.uid ==> Lookup(r.users, u) == Lookup(st.users, u)
    ensures |r.history| == |st.history| +
              (if ExitOutcomeIn(st, snapshot, commitOk) in {Left, ExitCommitFailed} then 1 else 0)
    ensures r.history[..|st.history|] == st.history
  {
    var o := ExitOutcomeIn(st, snapshot, commitOk);
    var signalled := st.(feedback := st.feedback + ExitSignals(o));
    if o == ExitUserMissing || o == NotInQueue then signalled
    else
      var uid, brgy := snapshot.uid, BarangayOf(snapshot);
      var a := st.users[uid];
      var logged := signalled.(
        transactions := st.transactions[uid := TxnsOf(st.transactions, uid) + [Txn(0, LeftQueueDescription)]],
        history := st.history + [HistoryRow(uid, a.name, brgy, Leave, None)]);
      if o == ExitCommitFailed then logged
      else logged.(users := st.users[uid := a.(inQueue := false)], queue := st.queue - {(brgy, uid)})
  }

  /** A rejected exit writes nothing and signals red then buzzer. */
  lemma ExitRejectedWritesNothing(st: State, snapshot: Account, commitOk: bool)
    requires ExitOutcomeIn(st, snapshot, commitOk) in {ExitUserMissing, NotInQueue}
    ensures AfterExit(st, snapshot, commitOk) == st.(feedback := st.feedback + [RedLed, Buzzer])
  {
  }

  /** A successful exit takes the user out of the queue and deletes the queue
      document, leaves the balance and every other account field alone, and
      appends exactly one zero-amount transaction and one history row without amount. */
  lemma ExitSuccessEffect(st: State, snapshot: Account, commitOk: bool)
    requires ExitOutcomeIn(st, snapshot, commitOk) == Left
    ensures snapshot.uid in st.users
    ensures var r, uid := AfterExit(st, snapshot, commitOk), snapshot.uid;
      var a, key := st.users[uid], (BarangayOf(snapshot), snapshot.uid);
      && a.inQueue
      && uid in r.users && r.users[uid] == a.(inQueue := false)
      && r.users[uid].balance == a.balance
      && (forall u :: u != uid ==> Lookup(r.users, u) == Lookup(st.users, u))
      && key !in r.queue
      && (forall k :: k != key ==> (k in r.queue <==> k in st.queue) && (k in st.queue ==> r.queue[k] == st.queue[k]))
      && TxnsOf(r.transactions, uid) == TxnsOf(st.transactions, uid) + [Txn(0, LeftQueueDescription)]
      && (forall u :: u != uid ==> TxnsOf(r.transactions, u) == TxnsOf(st.transactions, u))
      && r.history == st.history + [HistoryRow(uid, a.name, BarangayOf(snapshot), Leave, None)]
      && r.feedback == st.feedback + [GreenLed, Buzzer]
      && r.feeDoc == st.feeDoc
  {
  }

  /** The exit is not atomic: when the commit fails, the user stays in the
      queue but the transaction and history rows are already written. */
  lemma ExitCommitFailureIsPartial(st: State, snapshot: Account)
    requires ExitOutcomeIn(st, snapshot, false) == ExitCommitFailed
    ensures snapshot.uid in st.users && st.users[snapshot.uid].inQueue
    ensures var r, uid := AfterExit(st, snapshot, false), snapshot.uid;
      && r.users == st.users && r.queue == st.queue
      && TxnsOf(r.transactions, uid) == TxnsOf(st.transactions, uid) + [Txn(0, LeftQueueDescription)]
      && (forall u :: u != uid ==> TxnsOf(r.transactions, u) == TxnsOf(st.transactions, u))
      && r.history == st.history + [HistoryRow(uid, st.users[uid].name, BarangayOf(snapshot), Leave, None)]
      && r.feeDoc == st.feeDoc
      && r.feedback == st.feedback + [RedLed]
  {
  }

  lemma ExitPreservesValid(st: State, snapshot: Account, commitOk: bool)
    requires ValidState(st) && Agrees(st, snapshot)
    ensures ValidState(AfterExit(st, snapshot, commitOk))
  {
  }

  /** Joining and then leaving restores the queue collection and the user's
      document except for the fee paid. */
  lemma {:induction false} JoinThenExit(st: State, snapshot: Account)
    requires ValidState(st) && Agrees(st, snapshot)
    requires JoinOutcomeIn(st, snapshot, true) == Joined
    ensures var mid := AfterJoin(st, snapshot, true);
      var r := AfterExit(mid, snapshot, true);
      && ExitOutcomeIn(mid, snapshot, true) == Left
      && r.queue == st.queue
      && r.users == st.users[snapshot.uid := st.users[snapshot.uid].(
           balance := st.users[snapshot.uid].balance - TerminalFee(st.feeDoc).value)]
  {
    var uid, key := snapshot.uid, (BarangayOf(snapshot), snapshot.uid);
    assert key !in st.queue;
    var mid := AfterJoin(st, snapshot, true);
    assert mid.queue - {key} == st.queue;
  }

  /** Fee 20 and balance 100: the join leaves 80 and puts the driver in the
      queue; the exit that follows takes the driver out and leaves 80. */
  lemma FeeTwentyFromHundred(st: State, driver: Account)
    requires st.users == map[driver.uid := driver] && st.queue == map[]
    requires driver.balance == 100 && !driver.inQueue
    requires st.feeDoc == Some(map["fee" := 20])
    ensures var mid := AfterJoin(st, driver, true);
      var end := AfterExit(mid, driver, true);
      && JoinOutcomeIn(st, driver, true) == Joined
      && mid.users[driver.uid].balance == 80 && mid.users[driver.uid].inQueue
      && (BarangayOf(driver), driver.uid) in mid.queue
      && ExitOutcomeIn(mid, driver, true) == Left
      && end.users[driver.uid].balance == 80 && !end.users[driver.uid].inQueue
      && end.queue == map[]
      && end.feedback == st.feedback + [Buzzer, GreenLed, Buzzer]
  {
    assert TerminalFee(st.feeDoc) == Some(20);
    var mid := AfterJoin(st, driver, true);
    assert mid.queue == map[(BarangayOf(driver), driver.uid) := QueueEntry(driver.uid, driver.name, driver.tricycleNumber, true)];
  }

  /** Fee 20 and balance 5: the join is refused for the balance, which stays 5;
      no queue document appears and the terminal buzzes. */
  lemma FeeTwentyFromFive(st: State, driver: Account)
    requires st.users == map[driver.uid := driver] && st.queue == map[]
    requires driver.balance == 5 && !driver.inQueue
    requires st.feeDoc == Some(map["fee" := 20])
    ensures var r := AfterJoin(st, driver, true);
      && JoinOutcomeIn(st, driver, true) == InsufficientBalance
      && r.users[driver.uid].balance == 5
      && r.queue == map[]
      && r.feedback == st.feedback + [Buzzer]
  {
    assert TerminalFee(st.feeDoc) == Some(20);
  }

  // ---------------------------------------------------------------- the store

  /** The record store as the terminals see it, updated in place. */
  class Store {
    var users: map<string, Account>
    var queue: map<QueueKey, QueueEntry>
    var transactions: map<string, seq<Txn>>
    var history: seq<HistoryRow>
    var feeDoc: Option<map<string, int>>
    var feedback: seq<Signal>

    constructor (st: State)
      ensures Contents() == st
    {
      users, queue, transactions := st.users, st.queue, st.transactions;
      history, feeDoc, feedback := st.history, st.feeDoc, st.feedback;
    }

    function Contents(): State
      reads this
    {
      State(users, queue, transactions, history, feeDoc, feedback)
    }

    ghost predicate Valid()
      reads this
    {
      ValidState(Contents())
    }

    /** `fetch_user_data_from_firestore` and the re-reads inside the transitions. */
    function FetchUser(uid: string): (r: Option<Account>)
      reads this
      ensures r.Some? <==> uid in users
      ensures r.Some? ==> r.value == users[uid]
    {
      Lookup(users, uid)
    }

    /** `fetch_terminal_fee` */
    function FetchTerminalFee(): (r: Option<int>)
      reads this
      ensures r.Some? <==> feeDoc.Some? && "fee" in feeDoc.value
      ensures r.Some? ==> r.value == feeDoc.value["fee"]
    {
      TerminalFee(feeDoc)
    }

    /** `trigger_buzzer_on_esp32`, as called from a terminal's main loop. */
    method TriggerBuzzer()
      modifies this
      ensures Contents() == Buzz(old(Contents()))
    {
      feedback := feedback + [Buzzer];
    }

    /** `join_queue(user_data)`: re-reads the user, then checks existence, the
        fee, `inQueue` and the balance in that order, and on success commits one
        batch of four writes and buzzes. */
    method JoinQueue(snapshot: Account, commitOk: bool) returns (outcome: JoinOutcome)
      modifies this
      ensures outcome == JoinDecision(old(FetchUser(snapshot.uid)), old(FetchTerminalFee()), commitOk)
      ensures Contents() == AfterJoin(old(Contents()), snapshot, commitOk)
      ensures old(Valid()) && old(Agrees(Contents(), snapshot)) ==> Valid()
    {
      ghost var st := Contents();
      ghost var o := JoinOutcomeIn(st, snapshot, commitOk);
      var uid := snapshot.uid;
      var barangay := BarangayOf(snapshot);
      var terminalFee := FetchTerminalFee();
      var reread := FetchUser(uid);
      if reread.None? {
        feedback := feedback + [Buzzer];
        outcome := JoinUserMissing;
      } else if terminalFee.None? {
        outcome := FeeMissing;
      } else if reread.value.inQueue {
        feedback := feedback + [Buzzer];
        outcome := AlreadyInQueue;
      } else if reread.value.balance < terminalFee.value {
        feedback := feedback + [Buzzer];
        outcome := InsufficientBalance;
      } else if !commitOk {
        outcome := JoinCommitFailed;
      } else {
        var a, fee := reread.value, terminalFee.value;
        users := users[uid := Enqueued(a, fee)];
        queue := queue[(barangay, uid) := QueueEntry(uid, a.name, a.tricycleNumber, true)];
        transactions := transactions[uid := TxnsOf(transactions, uid) + [Txn(fee, QueueEntryDescription)]];
        history := history + [HistoryRow(uid, a.name, barangay, Join, Some(fee))];
        feedback := feedback + [Buzzer];
        outcome := Joined;
      }
      assert outcome == o;
      assert Contents() == AfterJoin(st, snapshot, commitOk);
      if ValidState(st) && Agrees(st, snapshot) {
        JoinPreservesValid(st, snapshot, commitOk);
      }
    }

    /** `exit_queue(user_data)`: re-reads the user, checks existence and
        `inQueue`, writes the transaction and history rows directly, then
        commits the batch that clears `inQueue` and deletes the queue document. */
    method ExitQueue(snapshot: Account, commitOk: bool) returns (outcome: ExitOutcome)
      modifies this
      ensures outcome == ExitDecision(old(FetchUser(snapshot.uid)), commitOk)
      ensures Contents() == AfterExit(old(Contents()), snapshot, commitOk)
      ensures old(Valid()) && old(Agrees(Contents(), snapshot)) ==> Valid()
    {
      ghost var st := Contents();
      var uid := snapshot.uid;
      var barangay := BarangayOf(snapshot);
      var reread := FetchUser(uid);
      if reread.None? {
        feedback := feedback + [RedLed, Buzzer];
        outcome := ExitUserMissing;
      } else if !reread.value.inQueue {
        feedback := feedback + [RedLed, Buzzer];
        outcome := NotInQueue;
      } else {
        var a := reread.value;
        transactions := transactions[uid := TxnsOf(transactions, uid) + [Txn(0, LeftQueueDescription)]];
        history := history + [HistoryRow(uid, a.name, barangay, Leave, None)];
        if commitOk {
          users := users[uid := a.(inQueue := false)];
          queue := queue - {(barangay, uid)};
          feedback := feedback + [GreenLed, Buzzer];
          outcome := Left;
        } else {
          feedback := feedback + [RedLed];
          outcome := ExitCommitFailed;
        }
      }
      if ValidState(st) && Agrees(st, snapshot) {
        ExitPreservesValid(st, snapshot, commitOk);
      }
    }
  }
}
