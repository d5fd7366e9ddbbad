/** The entry terminal's main loop (modified-entrance-scanner.py): each
    admitted read is decrypted, parsed, resolved to a user and handed to
    `join_queue`. Unlike the exit terminal it sends no feedback for a payload
    without uid or an unknown uid, and a read that does not decrypt aborts the
    cycle: `decrypt`'s handler calls `trigger_buzzer_on_esp32()` without its
    session argument, which raises, so neither the buzzer nor `prev = data` happens. */
module EntryTerminal {
  import opened Records
  import opened Payload
  import opened QueueStore
  import opened Dedupe

  /** The effect of one admitted read. */
  function Pipeline(st: State, token: string, decrypt: string -> Option<string>, commitOk: bool): (r: State)
    ensures r.feeDoc == st.feeDoc && r.users.Keys == st.users.Keys
    ensures |st.history| <= |r.history| <= |st.history| + 1 && r.history[..|st.history|] == st.history
    ensures r.feedback == st.feedback || r.feedback == st.feedback + [Buzzer]
    ensures r != st ==> decrypt(token).Some? && TokenUid(decrypt(token).value).Some?
                          && TokenUid(decrypt(token).value).value in st.users
  {
    match decrypt(token)
    case None => st
    case Some(text) =>
      if text == "" then st
      else
        match TokenUid(text)
        case None => st
        case Some(uid) =>
          match Lookup(st.users, uid)
          case None => st
          case Some(snapshot) => AfterJoin(st, snapshot, commitOk)
  }

  /** A read that names no known user (or does not decrypt) changes nothing and signals nothing. */
  lemma UnresolvedTokenIsSilent(st: State, token: string, decrypt: string -> Option<string>, commitOk: bool)
    requires || decrypt(token).None?
             || (decrypt(token).Some? && TokenUid(decrypt(token).value).None?)
             || (decrypt(token).Some? && TokenUid(decrypt(token).value).Some?
                 && TokenUid(decrypt(token).value).value !in st.users)
    ensures Pipeline(st, token, decrypt, commitOk) == st
  {
  }

  lemma PipelinePreservesValid(st: State, token: string, decrypt: string -> Option<string>, commitOk: bool)
    requires ValidState(st)
    ensures ValidState(Pipeline(st, token, decrypt, commitOk))
  {
    if decrypt(token).Some? && decrypt(token).value != "" {
      var uid := TokenUid(decrypt(token).value);
      if uid.Some? && uid.value in st.users {
        JoinPreservesValid(st, st.users[uid.value], commitOk);
      }
    }
  }

  /** The state after the loop has seen `frames`; `commits(i)` says whether
      the store accepts the batch committed while handling read i. */
  function Session(st: State, frames: seq<string>, decrypt: string -> Option<string>, commits: nat -> bool): (r: State)
    ensures r.feeDoc == st.feeDoc && r.users.Keys == st.users.Keys
    ensures |st.history| <= |r.history| <= |st.history| + |frames| && r.history[..|st.history|] == st.history
    ensures forall i :: |st.feedback| <= i < |r.feedback| ==> r.feedback[i] == Buzzer
    ensures |st.feedback| <= |r.feedback| <= |st.feedback| + |frames| && r.feedback[..|st.feedback|] == st.feedback
  {
    if |frames| == 0 then st
    else
      var n := |frames| - 1;
      var before := Session(st, frames[..n], decrypt, commits);
      if Admitted(LastDecrypted(frames[..n], decrypt), frames[n]) then Pipeline(before, frames[n], decrypt, commits(n))
      else before
  }

  /** The store's invariants hold throughout a session. */
  lemma {:induction false} SessionPreservesValid(st: State, frames: seq<string>,
                                                 decrypt: string -> Option<string>, commits: nat -> bool)
    requires ValidState(st)
    ensures ValidState(Session(st, frames, decrypt, commits))
  {
    if |frames| > 0 {
      var n := |frames| - 1;
      SessionPreservesValid(st, frames[..n], decrypt, commits);
      PipelinePreservesValid(Session(st, frames[..n], decrypt, commits), frames[n], decrypt, commits(n));
    }
  }

  /** One pass of the loop body for the read `data` (lines 177-191). */
  method Cycle(store: Store, filter: Filter, data: string, decrypt: string -> Option<string>, commitOk: bool)
    returns (processed: bool)
    modifies store, filter
    ensures processed == Admitted(old(filter.prev), data)
    ensures filter.prev == if processed && decrypt(data).Some? then data else old(filter.prev)
    ensures store.Contents() ==
              if processed then Pipeline(old(store.Contents()), data, decrypt, commitOk) else old(store.Contents())
  {
    processed := filter.Admits(data);
    if processed {
      var decrypted := decrypt(data);
      if decrypted.Some? {
        if decrypted.value != "" {
          var uid := TokenUid(decrypted.value);
          if uid.Some? {
            var user := store.FetchUser(uid.value);
            if user.Some? {
              var _ := store.JoinQueue(user.value, commitOk);
            }
          }
        }
        filter.Remember(data);
      }
    }
  }

  /** `main` over a finite run of reads: returns the positions at which the
      pipeline ran (the reads logged as "QR Code Data"). */
  method PollLoop(store: Store, frames: seq<string>, decrypt: string -> Option<string>, commits: nat -> bool)
    returns (processed: seq<nat>)
    modifies store
    ensures processed == EntryFirings(frames, decrypt)
    ensures store.Contents() == Session(old(store.Contents()), frames, decrypt, commits)
    ensures old(store.Valid()) ==> store.Valid()
  {
    var filter := new Filter();
    processed := [];
    var i := 0;
    while i < |frames|
      invariant 0 <= i <= |frames|
      invariant filter.prev == LastDecrypted(frames[..i], decrypt)
      invariant processed == EntryFirings(frames[..i], decrypt)
      invariant store.Contents() == Session(old(store.Contents()), frames[..i], decrypt, commits)
    {
      assert frames[..i + 1][..i] == frames[..i];
      var fired := Cycle(store, filter, frames[i], decrypt, commits(i));
      if fired {
        processed := processed + [i];
      }
      i := i + 1;
    }
    assert frames[..i] == frames;
    if ValidState(old(store.Contents())) {
      SessionPreservesValid(old(store.Contents()), frames, decrypt, commits);
    }
  }
}
