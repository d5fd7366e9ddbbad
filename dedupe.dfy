/** The single-slot filter each terminal's main loop keeps (`prev_data` in
    exit-scanner.py, `prev` in modified-entrance-scanner.py), and which reads
    of a sequence of camera frames run the pipeline. A read is the decoded QR
    text of one frame, "" when no code was detected. */
module Dedupe {
  import opened Records

  /** `data and data != prev`: the read is non-blank and not the remembered one. */
  predicate Admitted(prev: string, data: string)
  {
    data != "" && data != prev
  }

  class Filter {
    var prev: string

    /** Both loops start from an empty slot. */
    constructor ()
      ensures prev == ""
    {
      prev := "";
    }

    predicate Admits(data: string)
      reads this
    {
      Admitted(prev, data)
    }

    /** `prev = data` */
    method Remember(data: string)
      modifies this
      ensures prev == data
    {
      prev := data;
    }
  }

  // ------------------------------------------------------ exit terminal slot

  /** Every read after position j (all of them, for j == -1) is blank. */
  ghost predicate BlankAfter(frames: seq<string>, j: int)
  {
    forall k :: j < k < |frames| && 0 <= k ==> frames[k] == ""
  }

  /** The last non-blank read, or "" when there is none. */
  function LastNonBlank(frames: seq<string>): (r: string)
    ensures r == "" || r in frames
  {
    if |frames| == 0 then ""
    else if frames[|frames| - 1] != "" then frames[|frames| - 1]
    else LastNonBlank(frames[..|frames| - 1])
  }

  /** LastNonBlank is "" exactly when every read is blank, and otherwise it is
      a read after which only blanks follow. */
  lemma {:induction false} LastNonBlankIsLast(frames: seq<string>)
    ensures LastNonBlank(frames) == "" <==> BlankAfter(frames, -1)
    ensures LastNonBlank(frames) != "" ==>
              exists j :: 0 <= j < |frames| && frames[j] == LastNonBlank(frames) && BlankAfter(frames, j)
  {
    if |frames| > 0 && frames[|frames| - 1] == "" {
      var n := |frames| - 1;
      LastNonBlankIsLast(frames[..n]);
      assert forall k :: 0 <= k < n ==> frames[..n][k] == frames[k];
      if LastNonBlank(frames) != "" {
        var j :| 0 <= j < n && frames[..n][j] == LastNonBlank(frames) && BlankAfter(frames[..n], j);
        assert BlankAfter(frames, j);
      }
    }
  }

  /** Firing positions are strictly increasing. */
  predicate Increasing(r: seq<nat>)
  {
    forall p, q :: 0 <= p < q < |r| ==> r[p] < r[q]
  }

  /** Every firing position is a non-blank read of `frames`. */
  predicate AtReads(r: seq<nat>, frames: seq<string>)
  {
    forall p :: 0 <= p < |r| ==> r[p] < |frames| && frames[r[p]] != ""
  }

  /** The reads at which the exit pipeline runs. Every admitted read is
      remembered, so the slot always holds the last non-blank read. */
  function ExitFirings(frames: seq<string>): seq<nat>
  {
    if |frames| == 0 then []
    else
      var n := |frames| - 1;
      ExitFirings(frames[..n]) + (if Admitted(LastNonBlank(frames[..n]), frames[n]) then [n] else [])
  }

  /** The exit pipeline runs at increasing positions, each a non-blank read. */
  lemma {:induction false} ExitFiringsOrdered(frames: seq<string>)
    ensures Increasing(ExitFirings(frames)) && AtReads(ExitFirings(frames), frames)
  {
    if |frames| > 0 {
      var n := |frames| - 1;
      ExitFiringsOrdered(frames[..n]);
      var r0 := ExitFirings(frames[..n]);
      assert forall p :: 0 <= p < |r0| ==> r0[p] < n && frames[r0[p]] == frames[..n][r0[p]];
    }
  }

  /** Read i runs the exit pipeline exactly when it is non-blank and differs
      from the last non-blank read before it; blank frames never re-arm the slot. */
  lemma {:induction false} ExitFiresIff(frames: seq<string>, i: nat)
    requires i < |frames|
    ensures i in ExitFirings(frames) <==> frames[i] != "" && frames[i] != LastNonBlank(frames[..i])
  {
    var n := |frames| - 1;
    ExitFiringsOrdered(frames[..n]);
    if i < n {
      assert frames[..n][..i] == frames[..i];
      ExitFiresIff(frames[..n], i);
    } else {
      assert frames[..n] == frames[..i];
    }
  }

  /** On the reads A, A, A, B, B, A the exit pipeline runs at the first A, the
      first B and the second A (positions 0, 3 and 5). */
  lemma ExitSixReads(a: string, b: string)
    requires a != "" && b != "" && a != b
    ensures ExitFirings([a, a, a, b, b, a]) == [0, 3, 5]
  {
    var f := [a, a, a, b, b, a];
    assert f[..5] == [a, a, a, b, b] && f[..4] == [a, a, a, b];
    assert f[..4][..3] == [a, a, a] && [a, a, a][..2] == [a, a] && [a, a][..1] == [a];
    assert [a][..0] == [];
    assert LastNonBlank([a]) == a && LastNonBlank([a, a]) == a && LastNonBlank([a, a, a]) == a;
    assert ExitFirings([a]) == [0];
    assert ExitFirings([a, a]) == [0];
    assert ExitFirings([a, a, a]) == [0];
    assert ExitFirings([a, a, a, b]) == [0, 3];
    assert [a, a, a, b, b][..4] == [a, a, a, b];
    assert LastNonBlank([a, a, a, b]) == b;
    assert ExitFirings([a, a, a, b, b]) == [0, 3];
    assert LastNonBlank([a, a, a, b, b]) == b;
  }

  /** n copies of one read. */
  function Repeat(t: string, n: nat): (r: seq<string>)
    ensures |r| == n
    ensures forall i :: 0 <= i < n ==> r[i] == t
  {
    if n == 0 then [] else Repeat(t, n - 1) + [t]
  }

  /** The positions 0 .. n-1. */
  function Upto(n: nat): (r: seq<nat>)
    ensures |r| == n
    ensures forall i :: 0 <= i < n ==> r[i] == i
  {
    if n == 0 then [] else Upto(n - 1) + [n - 1]
  }

  /** A token that stays in view for n >= 1 frames runs the exit pipeline once. */
  lemma {:induction false} ExitSteadyTokenOnce(t: string, n: nat)
    requires t != "" && n >= 1
    ensures ExitFirings(Repeat(t, n)) == [0]
    ensures LastNonBlank(Repeat(t, n)) == t
  {
    if n > 1 {
      ExitSteadyTokenOnce(t, n - 1);
      assert Repeat(t, n)[..n - 1] == Repeat(t, n - 1);
    } else {
      assert Repeat(t, 1) == [t];
      assert [t][..0] == [];
    }
  }

  /** Blank frames between two sightings of the same token do not make it run again. */
  lemma {:induction false} ExitBlankGapNoRefire(frames: seq<string>, t: string, k: nat)
    requires t != ""
    ensures ExitFirings(frames + [t] + Repeat("", k) + [t]) == ExitFirings(frames + [t])
    ensures LastNonBlank(frames + [t] + Repeat("", k)) == t
  {
    BlanksChangeNothing(frames + [t], k);
    var g := frames + [t] + Repeat("", k);
    assert (g + [t])[..|g|] == g;
  }

  lemma {:induction false} BlanksChangeNothing(frames: seq<string>, k: nat)
    ensures ExitFirings(frames + Repeat("", k)) == ExitFirings(frames)
    ensures LastNonBlank(frames + Repeat("", k)) == LastNonBlank(frames)
  {
    if k == 0 {
      assert frames + Repeat("", 0) == frames;
    } else {
      BlanksChangeNothing(frames, k - 1);
      var g := frames + Repeat("", k);
      assert g[..|g| - 1] == frames + Repeat("", k - 1);
    }
  }

  // ----------------------------------------------------- entry terminal slot

  /** Every read after position j is blank or does not decrypt. */
  ghost predicate UndecryptedAfter(frames: seq<string>, j: int, decrypt: string -> Option<string>)
  {
    forall k :: j < k < |frames| && 0 <= k ==> frames[k] == "" || decrypt(frames[k]).None?
  }

  /** The last non-blank read that decrypted. The entry terminal remembers an
      admitted read only when it decrypts: on a failed decryption its error
      handler raises before `prev = data` is reached. */
  function LastDecrypted(frames: seq<string>, decrypt: string -> Option<string>): (r: string)
    ensures r == "" || (r in frames && decrypt(r).Some?)
  {
    if |frames| == 0 then ""
    else
      var t := frames[|frames| - 1];
      if t != "" && decrypt(t).Some? then t else LastDecrypted(frames[..|frames| - 1], decrypt)
  }

  /** LastDecrypted is "" exactly when no read is a non-blank one that
      decrypts, and otherwise it is such a read after which none follows. */
  lemma {:induction false} LastDecryptedIsLast(frames: seq<string>, decrypt: string -> Option<string>)
    ensures LastDecrypted(frames, decrypt) == "" <==> UndecryptedAfter(frames, -1, decrypt)
    ensures LastDecrypted(frames, decrypt) != "" ==>
              exists j :: (0 <= j < |frames| && frames[j] == LastDecrypted(frames, decrypt)
                           && UndecryptedAfter(frames, j, decrypt))
  {
    var n := |frames| - 1;
    if |frames| > 0 && !(frames[n] != "" && decrypt(frames[n]).Some?) {
      LastDecryptedIsLast(frames[..n], decrypt);
      assert forall k :: 0 <= k < n ==> frames[..n][k] == frames[k];
      if LastDecrypted(frames, decrypt) != "" {
        var j :| 0 <= j < n && frames[..n][j] == LastDecrypted(frames, decrypt) && UndecryptedAfter(frames[..n], j, decrypt);
        assert UndecryptedAfter(frames, j, decrypt);
      }
    }
  }

  /** The reads at which the entry pipeline runs. */
  function EntryFirings(frames: seq<string>, decrypt: string -> Option<string>): seq<nat>
  {
    if |frames| == 0 then []
    else
      var n := |frames| - 1;
      EntryFirings(frames[..n], decrypt)
        + (if Admitted(LastDecrypted(frames[..n], decrypt), frames[n]) then [n] else [])
  }

  /** The entry pipeline runs at increasing positions, each a non-blank read. */
  lemma {:induction false} EntryFiringsOrdered(frames: seq<string>, decrypt: string -> Option<string>)
    ensures Increasing(EntryFirings(frames, decrypt)) && AtReads(EntryFirings(frames, decrypt), frames)
  {
    if |frames| > 0 {
      var n := |frames| - 1;
      EntryFiringsOrdered(frames[..n], decrypt);
      var r0 := EntryFirings(frames[..n], decrypt);
      assert forall p :: 0 <= p < |r0| ==> r0[p] < n && frames[r0[p]] == frames[..n][r0[p]];
    }
  }

  /** Read i runs the entry pipeline exactly when it is non-blank and differs
      from the last earlier read that decrypted. */
  lemma {:induction false} EntryFiresIff(frames: seq<string>, i: nat, decrypt: string -> Option<string>)
    requires i < |frames|
    ensures i in EntryFirings(frames, decrypt) <==> frames[i] != "" && frames[i] != LastDecrypted(frames[..i], decrypt)
  {
    var n := |frames| - 1;
    EntryFiringsOrdered(frames[..n], decrypt);
    if i < n {
      assert frames[..n][..i] == frames[..i];
      EntryFiresIff(frames[..n], i, decrypt);
    } else {
      assert frames[..n] == frames[..i];
    }
  }

  /** A token that stays in view and decrypts runs the entry pipeline once. */
  lemma {:induction false} EntrySteadyTokenOnce(t: string, n: nat, decrypt: string -> Option<string>)
    requires t != "" && decrypt(t).Some? && n >= 1
    ensures EntryFirings(Repeat(t, n), decrypt) == [0]
    ensures LastDecrypted(Repeat(t, n), decrypt) == t
  {
    if n > 1 {
      EntrySteadyTokenOnce(t, n - 1, decrypt);
      assert Repeat(t, n)[..n - 1] == Repeat(t, n - 1);
    } else {
      assert Repeat(t, 1) == [t];
      assert [t][..0] == [];
    }
  }

  /** A token that stays in view but does not decrypt runs the entry pipeline
      on every frame, since the slot is never updated. */
  lemma {:induction false} EntryUndecryptableRefires(t: string, n: nat, decrypt: string -> Option<string>)
    requires t != "" && decrypt(t).None?
    ensures EntryFirings(Repeat(t, n), decrypt) == Upto(n)
    ensures LastDecrypted(Repeat(t, n), decrypt) == ""
  {
    if n > 0 {
      EntryUndecryptableRefires(t, n - 1, decrypt);
      assert Repeat(t, n)[..n - 1] == Repeat(t, n - 1);
    }
  }

  /** When every non-blank read decrypts, the entry terminal's slot and
      firings are exactly the exit terminal's. */
  lemma {:induction false} EntryMatchesExitWhenAllDecrypt(frames: seq<string>, decrypt: string -> Option<string>)
    requires forall i :: 0 <= i < |frames| && frames[i] != "" ==> decrypt(frames[i]).Some?
    ensures LastDecrypted(frames, decrypt) == LastNonBlank(frames)
    ensures EntryFirings(frames, decrypt) == ExitFirings(frames)
  {
    if |frames| > 0 {
      var n := |frames| - 1;
      assert forall k :: 0 <= k < n ==> frames[..n][k] == frames[k];
      EntryMatchesExitWhenAllDecrypt(frames[..n], decrypt);
    }
  }

  /** With tokens that decrypt, the entry terminal fires on A, A, A, B, B, A at
      positions 0, 3 and 5 as well. */
  lemma EntrySixReads(a: string, b: string, decrypt: string -> Option<string>)
    requires a != "" && b != "" && a != b
    requires decrypt(a).Some? && decrypt(b).Some?
    ensures EntryFirings([a, a, a, b, b, a], decrypt) == [0, 3, 5]
  {
    var f := [a, a, a, b, b, a];
    assert forall i :: 0 <= i < |f| ==> f[i] == a || f[i] == b;
    EntryMatchesExitWhenAllDecrypt(f, decrypt);
    ExitSixReads(a, b);
  }
}
