/** The exit terminal's main loop (exit-scanner.py): each admitted read is
    decrypted, parsed, resolved to a user and handed to `exit_queue`. */
module ExitTerminal {
  import opened Records
  import opened Payload
  import opened QueueStore
  import opened Dedupe

  /** The effect of one admitted read. A read that does not decrypt buzzes
      (from `decrypt`'s handler); a payload without uid, or a uid with no user
      document, buzzes; an empty plaintext does nothing. */
  function Pipeline(st: State, token: string, decrypt: string -> Option<string>, commitOk: bool): (r: State)
    ensures r.feeDoc == st.feeDoc && r.users.Keys == st.users.Keys
    ensures forall u :: u in st.users ==> r.users[u].balance == st.users[u].balance
    ensures |st.history| <= |r.history| <= |st.history| + 1 && r.history[..|st.history|] == st.history
    ensures |r.feedback| >= |st.feedback| && r.feedback[..|st.feedback|] == st.feedback
    ensures r.feedback == st.feedback <==> decrypt(token) == Some("")
  {
    match decrypt(token)
    case None => Buzz(st)
    case Some(text) =>
      if text == "" then st
      else
        match TokenUid(text)
        case None => Buzz(st)
        case Some(uid) =>
          match Lookup(st.users, uid)
          case None => Buzz(st)
          case Some(snapshot) => AfterExit(st, snapshot, commitOk)
  }

  /** A read that names no known user only buzzes and writes nothing. */
  lemma UnresolvedTokenOnlyBuzzes(st: State, token: string, decrypt: string -> Option<string>, commitOk: bool)
    requires || decrypt(token).None?
             || (decrypt(token).Some? && decrypt(token).value != "" && TokenUid(decrypt(token).value).None?)
             || (decrypt(token).Some? && decrypt(token).value != "" && TokenUid(decrypt(token).value).Some?
                 && TokenUid(decrypt(token).value).value !in st.users)
    ensures Pipeline(st, token, decrypt, commitOk) == st.(feedback := st.feedback + [Buzzer])
  {
  }

  lemma PipelinePreservesValid(st: State, token: string, decrypt: string -> Option<string>, commitOk: bool)
    requires ValidState(st)
    ensures ValidState(Pipeline(st, token, decrypt, commitOk))
  {
    if decrypt(token).Some? && decrypt(token).value != "" {
      var uid := TokenUid(decrypt(token).value);
      if uid.Some? && uid.value in st.users {
        ExitPreservesValid(st, st.users[uid.value], commitOk);
      }
    }
  }

  /** The state after the loop has seen `frames`; `commits(i)` says whether
      the store accepts the batch committed while handling read i. */
  function Session(st: State, frames: seq<string>, decrypt: string -> Option<string>, commits: nat -> bool): (r: State)
    ensures r.feeDoc == st.feeDoc && r.users.Keys == st.users.Keys
    ensures forall u :: u in st.users ==> r.users[u].balance == st.users[u].balance
    ensures |st.history| <= |r.history| <= |st.history| + |frames| && r.history[..|st.history|] == st.history
    ensures |r.feedback| >= |st.feedback| && r.feedback[..|st.feedback|] == st.feedback
  {
    if |frames| == 0 then st
    else
      var n := |frames| - 1;
      var before := Session(st, frames[..n], decrypt, commits);
      if Admitted(LastNonBlank(frames[..n]), frames[n]) then Pipeline(before, frames[n], decrypt, commits(n))
      else before
  }

  /** The store's invariants hold throughout a session. */
  lemma {:induction false} SessionPreservesValid(st: State, frames: seq<string>,
                                                 decrypt: string -> Option<string>, commits: nat -> bool)
    requires ValidState(st)
    ensures ValidState(Session(st, frames, decrypt, commits))
  {
    if |frames| > 0 {
      var n := |frames| - 1;
      SessionPreservesValid(st, frames[..n], decrypt, commits);
      PipelinePreservesValid(Session(st, frames[..n], decrypt, commits), frames[n], decrypt, commits(n));
    }
  }

  /** One pass of the loop body for the read `data` (lines 224-246). */
  method Cycle(store: Store, filter: Filter, data: string, decrypt: string -> Option<string>, commitOk: bool)
    returns (processed: bool)
    modifies store, filter
    ensures processed == Admitted(old(filter.prev), data)
    ensures filter.prev == if processed then data else old(filter.prev)
    ensures store.Contents() ==
              if processed then Pipeline(old(store.Contents()), data, decrypt, commitOk) else old(store.Contents())
  {
    processed := filter.Admits(data);
    if processed {
      var decrypted := decrypt(data);
      if decrypted.None? {
        store.TriggerBuzzer();
      } else if decrypted.value != "" {
        var uid := TokenUid(decrypted.value);
        if uid.Some? {
          var user := store.FetchUser(uid.value);
          if user.Some? {
            var _ := store.ExitQueue(user.value, commitOk);
          } else {
            store.TriggerBuzzer();
          }
        } else {
          store.TriggerBuzzer();
        }
      }
      filter.Remember(data);
    }
  }

  /** `main` over a finite run of reads: returns the positions at which the
      pipeline ran (the reads logged as "QR Code Data"). */
  method PollLoop(store: Store, frames: seq<string>, decrypt: string -> Option<string>, commits: nat -> bool)
    returns (processed: seq<nat>)
    modifies store
    ensures processed == ExitFirings(frames)
    ensures store.Contents() == Session(old(store.Contents()), frames, decrypt, commits)
    ensures old(store.Valid()) ==> store.Valid()
  {
    var filter := new Filter();
    processed := [];
    var i := 0;
    while i < |frames|
      invariant 0 <= i <= |frames|
      invariant filter.prev == LastNonBlank(frames[..i])
      invariant processed == ExitFirings(frames[..i])
      invariant store.Contents() == Session(old(store.Contents()), frames[..i], decrypt, commits)
    {
      assert frames[..i + 1][..i] == frames[..i];
      var fired := Cycle(store, filter, frames[i], decrypt, commits(i));
      if fired {
        processed := processed + [i];
      }
      i := i + 1;
    }
    assert frames[..i] == frames;
    if ValidState(old(store.Contents())) {
      SessionPreservesValid(old(store.Contents()), frames, decrypt, commits);
    }
  }
}
