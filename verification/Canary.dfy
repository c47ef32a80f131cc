/** The startup canary. */
module Canary {
  // The first start seals a known text under its key and stores the sealed text and then the key's id,
  // as two separate writes; later starts refuse to run unless they have the same key id and can open the
  // stored text. A start may crash between its steps, or fail to read what is stored.

  import opened Wrappers

  const CANARY_PLAINTEXT := "harbrr-secrets-canary-v1"

  /** A keyring as the canary uses it: its id, sealing the canary with a nonce, and opening a text. */
  datatype Key = Key(id: string, sealing: int -> Option<string>, opening: string -> Option<string>) {
    function Seal(nonce: int): Option<string> { sealing(nonce) }

    function Open(blob: string): Option<string> { opening(blob) }
  }

  /** The key opens what it sealed. */
  ghost predicate Sound(k: Key) {
    forall nonce :: Opens(k, k.Seal(nonce))
  }

  predicate Opens(k: Key, sealed: Option<string>) {
    sealed.Some? ==> k.Open(sealed.value) == Some(CANARY_PLAINTEXT)
  }

  /** The two rows of `app_meta`. */
  datatype Meta = Meta(blob: Option<string>, keyId: Option<string>)

  /** Where a start stops by itself: nowhere, at one of its reads, or before, between or after its writes. */
  datatype Crash = NoCrash | ReadFails | BeforeBlob | BetweenWrites | AfterWrites

  datatype Outcome = Completed | Refused | Crashed

  /** One attempt to start. */
  datatype Start = Start(key: Key, nonce: int, crash: Crash)

  function VerifyStored(k: Key, keyId: string, blob: string): bool {
    keyId == k.id && k.Open(blob) == Some(CANARY_PLAINTEXT)
  }

  /** What an attempt does to the stored rows, and how it ends. */
  function Run(m: Meta, s: Start): (Meta, Outcome) {
    if s.crash == ReadFails then (m, Refused)
    else if m.blob.None? || m.keyId.None? then
      match s.key.Seal(s.nonce)
      case None => (m, Refused)
      case Some(blob) =>
        if s.crash == BeforeBlob then (m, Crashed)
        else if s.crash == BetweenWrites then (m.(blob := Some(blob)), Crashed)
        else (Meta(Some(blob), Some(s.key.id)), if s.crash == AfterWrites then Crashed else Completed)
    else if VerifyStored(s.key, m.keyId.value, m.blob.value) then (m, Completed)
    else (m, Refused)
  }

  /** The store, updated in place. */
  class AppMeta {
    var blob: Option<string>
    var keyId: Option<string>

    function Stored(): Meta
      reads this
    {
      Meta(blob, keyId)
    }

    constructor ()
      ensures Stored() == Meta(None, None)
    {
      blob, keyId := None, None;
    }

    method VerifyCanary(s: Start) returns (outcome: Outcome)
      modifies this
      ensures (Stored(), outcome) == Run(old(Stored()), s)
    {
      if s.crash == ReadFails {
        return Refused;
      }
      if blob.None? || keyId.None? {
        outcome := InitCanary(s);
        return;
      }
      if keyId.value != s.key.id {
        return Refused;
      }
      var got := s.key.Open(blob.value);
      if got.None? {
        return Refused;
      }
      if got.value != CANARY_PLAINTEXT {
        return Refused;
      }
      outcome := Completed;
    }

    method InitCanary(s: Start) returns (outcome: Outcome)
      requires (blob.None? || keyId.None?) && s.crash != ReadFails
      modifies this
      ensures (Stored(), outcome) == Run(old(Stored()), s)
    {
      var sealed := s.key.Seal(s.nonce);
      if sealed.None? {
        return Refused;
      }
      if s.crash == BeforeBlob {
        return Crashed;
      }
      blob := sealed;
      if s.crash == BetweenWrites {
        return Crashed;
      }
      keyId := Some(s.key.id);
      outcome := if s.crash == AfterWrites then Crashed else Completed;
    }
  }

  // ----- Sequences of starts

  function RunAll(m: Meta, starts: seq<Start>): Meta {
    if starts == [] then m else Run(RunAll(m, starts[..|starts| - 1]), starts[|starts| - 1]).0
  }

  /** The rows just before start `i`, from an empty store. */
  function Before(starts: seq<Start>, i: nat): Meta
    requires i <= |starts|
  {
    RunAll(Meta(None, None), starts[..i])
  }

  function OutcomeOf(starts: seq<Start>, i: nat): Outcome
    requires i < |starts|
  {
    Run(Before(starts, i), starts[i]).1
  }

  lemma BeforeNext(starts: seq<Start>, i: nat)
    requires i < |starts|
    ensures Before(starts, i + 1) == Run(Before(starts, i), starts[i]).0
  {
    assert starts[..i + 1][..i] == starts[..i];
  }

  /** Start `j` sealed the stored text, and its key has the stored id. */
  predicate SealedBy(starts: seq<Start>, m: Meta, j: nat) {
    && j < |starts| && m.keyId.Some? && m.blob.Some?
    && starts[j].key.id == m.keyId.value && starts[j].key.Seal(starts[j].nonce) == m.blob
  }

  /** In every run, a stored key id comes with a text that an earlier start sealed under a key of that id. */
  lemma {:induction false} StoredIdHasItsCanary(starts: seq<Start>, i: nat) returns (j: nat)
    requires i <= |starts|
    ensures Before(starts, i).keyId.Some? ==> j < i && SealedBy(starts, Before(starts, i), j)
  {
    if i == 0 {
      assert starts[..0] == [];
      return 0;
    }
    BeforeNext(starts, i - 1);
    j := StoredIdHasItsCanary(starts, i - 1);
    if Before(starts, i) != Before(starts, i - 1) {
      j := i - 1;
    }
  }

  /** A complete pair is never overwritten, by any later starts. */
  lemma {:induction false} CompletePairStays(starts: seq<Start>, i: nat, k: nat)
    requires i <= k <= |starts|
    requires Before(starts, i).blob.Some? && Before(starts, i).keyId.Some?
    ensures Before(starts, k) == Before(starts, i)
  {
    if i < k {
      CompletePairStays(starts, i, k - 1);
      BeforeNext(starts, k - 1);
    }
  }

  /** After a start completes, the stored pair is complete and carries its key's id. */
  lemma CompletedLeavesPair(starts: seq<Start>, i: nat)
    requires i < |starts| && OutcomeOf(starts, i) == Completed
    ensures var m := Before(starts, i + 1); m.blob.Some? && m.keyId == Some(starts[i].key.id)
  {
    BeforeNext(starts, i);
  }

  /** Once a start has completed, no start with another key id ever does. */
  lemma OtherKeysAreRefused(starts: seq<Start>, i: nat, k: nat)
    requires i < k < |starts| && OutcomeOf(starts, i) == Completed && OutcomeOf(starts, k) == Completed
    ensures starts[k].key.id == starts[i].key.id
  {
    CompletedLeavesPair(starts, i);
    CompletePairStays(starts, i + 1, k);
  }

  /**
   After a completed start, a later one completes exactly when it reads what is stored, has the stored
   id and opens the stored text; it never crashes half-way, for it writes nothing.
   */
  lemma LaterStartsCompleteIff(starts: seq<Start>, i: nat, k: nat)
    requires i < k < |starts| && OutcomeOf(starts, i) == Completed
    ensures var m := Before(starts, i + 1);
      && m.blob.Some? && m.keyId.Some?
      && Before(starts, k + 1) == m
      && (OutcomeOf(starts, k) == Completed <==>
            starts[k].crash != ReadFails && starts[k].key.id == m.keyId.value
            && starts[k].key.Open(m.blob.value) == Some("harbrr-secrets-canary-v1"))
      && OutcomeOf(starts, k) != Crashed
  {
    CompletedLeavesPair(starts, i);
    CompletePairStays(starts, i + 1, k);
    CompletePairStays(starts, i + 1, k + 1);
  }

  /** With one key throughout, a restart that can read completes after a completed start, whatever crashed before it. */
  lemma SameKeyRestarts(starts: seq<Start>, i: nat, k: nat)
    requires i < k < |starts| && OutcomeOf(starts, i) == Completed
    requires starts[k].crash != ReadFails && Sound(starts[k].key)
    requires forall j :: 0 <= j <= k ==> starts[j].key == starts[k].key
    ensures OutcomeOf(starts, k) == Completed
  {
    LaterStartsCompleteIff(starts, i, k);
    var j := StoredIdHasItsCanary(starts, i + 1);
    assert Opens(starts[k].key, starts[k].key.Seal(starts[j].nonce));
  }

  /**
   A start that crashes before its second write does not bind the store to its key: the next one takes
   over. One that crashes after it does: the next one leaves its pair, and completes exactly with it.
   */
  lemma CrashDoesNotBind(m: Meta, crashed: Start, next: Start)
    requires m.keyId.None? && Run(m, crashed).1 == Crashed
    requires next.crash == NoCrash && next.key.Seal(next.nonce).Some?
    ensures var left := Run(m, crashed).0;
      if crashed.crash != AfterWrites then
        Run(left, next) == (Meta(next.key.Seal(next.nonce), Some(next.key.id)), Completed)
      else
        && left == Meta(crashed.key.Seal(crashed.nonce), Some(crashed.key.id))
        && Run(left, next).0 == left
        && (Run(left, next).1 == Completed <==>
              next.key.id == crashed.key.id && next.key.Open(left.blob.value) == Some("harbrr-secrets-canary-v1"))
  {
  }
}
