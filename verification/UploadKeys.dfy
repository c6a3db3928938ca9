/** One idempotency key per logical photo upload, and a server that deduplicates by key. */
module UploadKeys {
  import opened Prelude

  /** A `File` object: two selections of the same bytes are two files. */
  type File = nat

  /** Keys are named by the order in which the key source produced them: it never repeats one. */
  type Key = nat

  datatype Failure = Network | Api(status: int, code: Option<string>)

  const IN_PROGRESS := "PHOTO_OPERATION_IN_PROGRESS"
  const FENCE_LOST := "PHOTO_OPERATION_FENCE_LOST"

  /** `productPhotoUploadFailureIsAmbiguous`. */
  predicate IsAmbiguous(error: Failure) {
    match error
    case Network => true
    case Api(status, code) =>
      status >= 500 || status == 408 || status == 429
      || (status == 409 && (code == Some(IN_PROGRESS) || code == Some(FENCE_LOST)))
  }

  /** Success or a definitive rejection ends the logical upload. */
  predicate Ends(error: Option<Failure>) {
    error.None? || !IsAmbiguous(error.value)
  }

  datatype Binding = Binding(key: Key, altText: string)

  datatype Client = Client(keys: map<File, Binding>, next: Key)

  function KeyOf(c: Client, file: File, altText: string): Key {
    if file in c.keys && c.keys[file].altText == altText then c.keys[file].key else c.next
  }

  function AfterKeyFor(c: Client, file: File, altText: string): Client {
    var key := KeyOf(c, file, altText);
    Client(c.keys[file := Binding(key, altText)], if key == c.next then c.next + 1 else c.next)
  }

  function AfterSettle(c: Client, file: File, error: Option<Failure>): Client {
    if Ends(error) then c.(keys := c.keys - {file}) else c
  }

  /** What `createProductPhotoUploadKeys` returns, with the key source it closes over. */
  class ProductPhotoUploadKeys {
    var keys: map<File, Binding>
    var next: Key

    ghost function Now(): Client
      reads this
    {
      Client(keys, next)
    }

    /** Every bound key has been drawn from the source. */
    ghost predicate Valid()
      reads this
    {
      forall f | f in keys :: keys[f].key < next
    }

    constructor ()
      ensures Valid() && Now() == Client(map[], 0)
    {
      keys, next := map[], 0;
    }

    method NewKey() returns (key: Key)
      modifies this`next
      ensures key == old(next) && next == key + 1
    {
      key := next;
      next := next + 1;
    }

    method KeyFor(file: File, altText: string) returns (key: Key)
      requires Valid()
      modifies this
      ensures Valid()
      ensures key == KeyOf(old(Now()), file, altText)
      ensures Now() == AfterKeyFor(old(Now()), file, altText)
    {
      if file in keys && keys[file].altText == altText {
        assert keys[file := keys[file]] == keys;
        return keys[file].key;
      }
      key := NewKey();
      keys := keys[file := Binding(key, altText)];
    }

    method Settle(file: File, error: Option<Failure>)
      requires Valid()
      modifies this`keys
      ensures Valid()
      ensures Now() == AfterSettle(old(Now()), file, error)
    {
      if error.None? || !IsAmbiguous(error.value) {
        keys := keys - {file};
      }
    }
  }

  // ----- runs: attempts, outcomes and the server, in any order -----

  /**
   An attempt sends a request; a response of any kind, or none, settles a file; the server
   works on the request at position `request` of the log at any time, any number of times.
   */
  datatype Move =
    | Attempt(file: File, altText: string)
    | Answer(file: File, error: Option<Failure>)
    | Serve(request: nat)

  datatype Entry = Sent(file: File, altText: string, key: Key) | Settled(file: File, error: Option<Failure>)
                 | Photo(file: File, key: Key)

  datatype State = State(client: Client, log: seq<Entry>)

  predicate HasPhoto(log: seq<Entry>, key: Key) {
    exists i :: 0 <= i < |log| && log[i].Photo? && log[i].key == key
  }

  function Step(s: State, m: Move): State {
    match m
    case Attempt(file, altText) =>
      State(AfterKeyFor(s.client, file, altText), s.log + [Sent(file, altText, KeyOf(s.client, file, altText))])
    case Answer(file, error) => State(AfterSettle(s.client, file, error), s.log + [Settled(file, error)])
    case Serve(request) =>
      if request < |s.log| && s.log[request].Sent? && !HasPhoto(s.log, s.log[request].key)
      then s.(log := s.log + [Photo(s.log[request].file, s.log[request].key)])
      else s
  }

  function Run(moves: seq<Move>): State {
    if moves == [] then State(Client(map[], 0), []) else Step(Run(moves[..|moves| - 1]), moves[|moves| - 1])
  }

  // ----- what a logical upload is, told from the log alone -----

  /** The attempts on `file` from `i` to `j` have one alt text, and nothing between ends the upload. */
  predicate OneUpload(log: seq<Entry>, file: File, i: int, j: int)
    requires 0 <= i <= j < |log| && log[i].Sent?
  {
    && (forall x | i < x < j :: !EndsUpload(log[x], file))
    && (forall x | i <= x <= j :: log[x].Sent? && log[x].file == file ==> log[x].altText == log[i].altText)
  }

  predicate EndsUpload(entry: Entry, file: File) {
    entry.Settled? && entry.file == file && Ends(entry.error)
  }

  /** The last attempt on `file`, unless the upload has ended since. */
  function Open(log: seq<Entry>, file: File): Option<nat>
    ensures Open(log, file).Some? ==> Open(log, file).value < |log| && log[Open(log, file).value].Sent?
  {
    if log == [] then None else
      var n := |log| - 1;
      if log[n].Sent? && log[n].file == file then Some(n)
      else if EndsUpload(log[n], file) then None
      else Open(log[..n], file)
  }

  /** How many logical uploads of `file` the log holds: attempts that do not continue the open one. */
  function LogicalUploads(log: seq<Entry>, file: File): nat {
    if log == [] then 0 else
      var n := |log| - 1;
      var open := Open(log[..n], file);
      var starts := log[n].Sent? && log[n].file == file && (open.None? || log[open.value].altText != log[n].altText);
      LogicalUploads(log[..n], file) + if starts then 1 else 0
  }

  function PhotosOf(log: seq<Entry>, file: File): nat {
    if log == [] then 0 else
      var n := |log| - 1;
      PhotosOf(log[..n], file) + if log[n].Photo? && log[n].file == file then 1 else 0
  }

  // ----- the invariant -----

  /** The client's bindings are exactly the open uploads. */
  ghost predicate BindingsAreOpen(s: State) {
    forall file: File ::
      var open := Open(s.log, file);
      && (file in s.client.keys <==> open.Some?)
      && (open.Some? ==> s.log[open.value] == Sent(file, s.client.keys[file].altText, s.client.keys[file].key))
  }

  predicate KeysDrawn(s: State) {
    forall i | 0 <= i < |s.log| && s.log[i].Sent? :: s.log[i].key < s.client.next
  }

  predicate KeysNameUploads(log: seq<Entry>) {
    forall i, j | 0 <= i < j < |log| && log[i].Sent? && log[j].Sent? ::
      log[i].key == log[j].key <==> log[i].file == log[j].file && OneUpload(log, log[i].file, i, j)
  }

  predicate OnePhotoPerKey(log: seq<Entry>) {
    && (forall p, q | 0 <= p < q < |log| && log[p].Photo? && log[q].Photo? :: log[p].key != log[q].key)
    && (forall p | 0 <= p < |log| && log[p].Photo? ::
          exists i :: 0 <= i < p && log[i].Sent? && log[i].key == log[p].key && log[i].file == log[p].file)
  }

  lemma {:induction false} OpenIs(log: seq<Entry>, file: File)
    ensures var open := Open(log, file);
      && (open.Some? ==>
            && log[open.value].file == file
            && (forall x | open.value < x < |log| ::
                  !(log[x].Sent? && log[x].file == file) && !EndsUpload(log[x], file)))
      && (open.None? ==> forall x | 0 <= x < |log| && log[x].Sent? && log[x].file == file ::
            exists y :: x < y < |log| && EndsUpload(log[y], file))
    decreases |log|
  {
    if log != [] {
      var n := |log| - 1;
      var shorter := log[..n];
      OpenIs(shorter, file);
      assert forall x | 0 <= x < n :: shorter[x] == log[x];
    }
  }

  lemma OneUploadSnoc(log: seq<Entry>, entry: Entry, file: File, i: nat, j: nat)
    requires i <= j < |log| && log[i].Sent?
    ensures OneUpload(log + [entry], file, i, j) <==> OneUpload(log, file, i, j)
  {
    var longer := log + [entry];
    assert forall x | 0 <= x < |log| :: longer[x] == log[x];
    if OneUpload(longer, file, i, j) {
      forall x | i < x < j ensures !EndsUpload(log[x], file) {
        assert !EndsUpload(longer[x], file);
      }
      forall x | i <= x <= j ensures log[x].Sent? && log[x].file == file ==> log[x].altText == log[i].altText {
        assert longer[x].Sent? && longer[x].file == file ==> longer[x].altText == longer[i].altText;
      }
    }
  }

  /** The upload that the attempt at `i` belongs to still goes on at the end exactly when it is the open one. */
  lemma GoesOnIff(log: seq<Entry>, sent: Entry, i: nat)
    requires i < |log| && log[i].Sent? && sent.Sent? && log[i].file == sent.file
    ensures var open := Open(log, sent.file);
      OneUpload(log + [sent], sent.file, i, |log|) <==>
        open.Some? && i <= open.value && log[open.value].altText == sent.altText
          && OneUpload(log, sent.file, i, open.value)
  {
    var open := Open(log, sent.file);
    OpenIs(log, sent.file);
    hide Open;
    if OneUpload(log + [sent], sent.file, i, |log|) {
      WentOn(log, sent, i);
    }
    if && open.Some? && i <= open.value && log[open.value].altText == sent.altText
       && OneUpload(log, sent.file, i, open.value)
    {
      GoesOn(log, sent, i, open.value);
    }
  }

  lemma WentOn(log: seq<Entry>, sent: Entry, i: nat)
    requires i < |log| && log[i].Sent? && sent.Sent? && log[i].file == sent.file
    requires OneUpload(log + [sent], sent.file, i, |log|)
    ensures var open := Open(log, sent.file);
      && open.Some? && i <= open.value && log[open.value].altText == sent.altText
      && OneUpload(log, sent.file, i, open.value)
  {
    var open := Open(log, sent.file);
    var longer := log + [sent];
    OpenIs(log, sent.file);
    assert forall x | i < x < |log| :: longer[x] == log[x] && !EndsUpload(longer[x], sent.file);
    assert open.Some? && i <= open.value;
    OneUploadOfPart(longer, sent.file, i, open.value, |log|);
    OneUploadSnoc(log, sent, sent.file, i, open.value);
    assert longer[|log|] == sent && longer[open.value] == log[open.value];
  }

  lemma GoesOn(log: seq<Entry>, sent: Entry, i: nat, p: nat)
    requires i <= p < |log| && log[i].Sent? && log[p].Sent? && sent.Sent? && log[i].file == log[p].file == sent.file
    requires log[p].altText == sent.altText && OneUpload(log, sent.file, i, p)
    requires forall x | p < x < |log| :: !(log[x].Sent? && log[x].file == sent.file) && !EndsUpload(log[x], sent.file)
    ensures OneUpload(log + [sent], sent.file, i, |log|)
  {
    var longer := log + [sent];
    OneUploadSnoc(log, sent, sent.file, i, p);
    assert longer[i] == log[i] && longer[p] == log[p];
    forall x | i < x < |log| ensures !EndsUpload(longer[x], sent.file) {
      assert longer[x] == log[x];
    }
    forall x | i <= x <= |log| && longer[x].Sent? && longer[x].file == sent.file
      ensures longer[x].altText == longer[i].altText
    {
      assert x < |log| ==> longer[x] == log[x];
      assert x <= p || x == |log|;
    }
  }

  lemma OneUploadOfPart(log: seq<Entry>, file: File, i: nat, j: nat, k: nat)
    requires i <= j <= k < |log| && log[i].Sent? && OneUpload(log, file, i, k)
    ensures OneUpload(log, file, i, j)
  {
  }

  /** An attempt gets the key of an earlier one exactly when it continues its upload. */
  lemma NextKeyFits(s: State, file: File, altText: string, i: nat)
    requires BindingsAreOpen(s) && KeysDrawn(s) && KeysNameUploads(s.log)
    requires i < |s.log| && s.log[i].Sent?
    ensures var key := KeyOf(s.client, file, altText);
      var log := s.log + [Sent(file, altText, key)];
      log[i].key == key <==> log[i].file == file && OneUpload(log, file, i, |s.log|)
  {
    var key := KeyOf(s.client, file, altText);
    var sent := Sent(file, altText, key);
    var open := Open(s.log, file);
    OpenIs(s.log, file);
    if s.log[i].file == file {
      GoesOnIff(s.log, sent, i);
    }
  }

  lemma LogStepKeepsKeys(log: seq<Entry>, entry: Entry)
    requires KeysNameUploads(log)
    requires entry.Sent? ==> forall i | 0 <= i < |log| && log[i].Sent? ::
      log[i].key == entry.key <==> log[i].file == entry.file && OneUpload(log + [entry], log[i].file, i, |log|)
    ensures KeysNameUploads(log + [entry])
  {
    var longer := log + [entry];
    forall i, j | 0 <= i < j < |longer| && longer[i].Sent? && longer[j].Sent?
      ensures longer[i].key == longer[j].key <==>
        longer[i].file == longer[j].file && OneUpload(longer, longer[i].file, i, j)
    {
      if j < |log| {
        OneUploadSnoc(log, entry, log[i].file, i, j);
      }
    }
  }

  lemma AttemptKeepsKeys(s: State, file: File, altText: string)
    requires BindingsAreOpen(s) && KeysDrawn(s) && KeysNameUploads(s.log)
    ensures KeysNameUploads(Step(s, Attempt(file, altText)).log)
  {
    var sent := Sent(file, altText, KeyOf(s.client, file, altText));
    forall i | 0 <= i < |s.log| && s.log[i].Sent?
      ensures s.log[i].key == sent.key <==>
        s.log[i].file == sent.file && OneUpload(s.log + [sent], s.log[i].file, i, |s.log|)
    {
      NextKeyFits(s, file, altText, i);
    }
    LogStepKeepsKeys(s.log, sent);
  }

  ghost predicate Inv(s: State) {
    BindingsAreOpen(s) && KeysDrawn(s) && KeysNameUploads(s.log) && OnePhotoPerKey(s.log)
  }

  lemma OpenSnoc(log: seq<Entry>, entry: Entry, file: File)
    ensures Open(log + [entry], file) ==
      if entry.Sent? && entry.file == file then Some(|log|)
      else if EndsUpload(entry, file) then None
      else Open(log, file)
  {
    assert (log + [entry])[..|log|] == log;
  }

  lemma StepKeepsBindings(s: State, m: Move)
    requires BindingsAreOpen(s) && KeysDrawn(s)
    ensures BindingsAreOpen(Step(s, m)) && KeysDrawn(Step(s, m))
  {
    var t := Step(s, m);
    forall file: File
      ensures var open := Open(t.log, file);
        && (file in t.client.keys <==> open.Some?)
        && (open.Some? ==> t.log[open.value] == Sent(file, t.client.keys[file].altText, t.client.keys[file].key))
    {
      var open := Open(s.log, file);
      assert open.Some? ==> s.log[open.value] == Sent(file, s.client.keys[file].altText, s.client.keys[file].key);
      if t.log != s.log {
        OpenSnoc(s.log, t.log[|s.log|], file);
        assert t.log == s.log + [t.log[|s.log|]];
      }
    }
  }

  lemma StepKeepsInv(s: State, m: Move)
    requires Inv(s)
    ensures Inv(Step(s, m))
  {
    StepKeepsBindings(s, m);
    if m.Attempt? {
      AttemptKeepsKeys(s, m.file, m.altText);
    } else if Step(s, m).log != s.log {
      LogStepKeepsKeys(s.log, Step(s, m).log[|s.log|]);
    }
    StepKeepsPhotos(s, m);
  }

  lemma StepKeepsPhotos(s: State, m: Move)
    requires OnePhotoPerKey(s.log)
    ensures OnePhotoPerKey(Step(s, m).log)
  {
    var log := Step(s, m).log;
    forall p | 0 <= p < |log| && log[p].Photo?
      ensures exists i :: 0 <= i < p && log[i].Sent? && log[i].key == log[p].key && log[i].file == log[p].file
    {
      if p < |s.log| {
        var i :| 0 <= i < p && s.log[i].Sent? && s.log[i].key == s.log[p].key && s.log[i].file == s.log[p].file;
        assert log[i] == s.log[i];
      } else {
        assert log[m.request].key == log[p].key;
      }
    }
  }

  lemma {:induction false} RunKeepsInv(moves: seq<Move>)
    ensures Inv(Run(moves))
    decreases |moves|
  {
    if moves != [] {
      RunKeepsInv(moves[..|moves| - 1]);
      StepKeepsInv(Run(moves[..|moves| - 1]), moves[|moves| - 1]);
    }
  }

  // ----- main results -----

  /**
   Two attempts ever made carry the same key exactly when they belong to one logical upload:
   same file, same alt text throughout, and no success or definitive rejection in between.
   */
  lemma SameKeyIffOneUpload(moves: seq<Move>, i: nat, j: nat)
    requires var log := Run(moves).log; i < j < |log| && log[i].Sent? && log[j].Sent?
    ensures var log := Run(moves).log;
      log[i].key == log[j].key <==> log[i].file == log[j].file && OneUpload(log, log[i].file, i, j)
  {
    RunKeepsInv(moves);
  }

  /** Files never share a key, and a key is never sent with two alt texts. */
  lemma KeysAreNeverShared(moves: seq<Move>, i: nat, j: nat)
    requires var log := Run(moves).log;
      && i < |log| && j < |log| && log[i].Sent? && log[j].Sent? && log[i].key == log[j].key
    ensures var log := Run(moves).log; log[i].file == log[j].file && log[i].altText == log[j].altText
  {
    var log := Run(moves).log;
    if i < j {
      SameKeyIffOneUpload(moves, i, j);
      assert OneUpload(log, log[i].file, i, j);
    } else if j < i {
      SameKeyIffOneUpload(moves, j, i);
      assert OneUpload(log, log[j].file, j, i);
    }
  }

  /**
   However many attempts, lost responses and repeated deliveries one logical upload sees, the
   server creates at most one photo from its requests, even if some are served later.
   */
  lemma OnePhotoPerUpload(moves: seq<Move>, i: nat, j: nat, p: nat, q: nat)
    requires var log := Run(moves).log;
      && i <= j < |log| && log[i].Sent? && log[j].Sent? && log[i].file == log[j].file
      && OneUpload(log, log[i].file, i, j)
      && p < |log| && log[p].Photo? && log[p].key == log[i].key
      && q < |log| && log[q].Photo? && log[q].key == log[j].key
    ensures p == q
  {
    RunKeepsInv(moves);
    if i < j {
      SameKeyIffOneUpload(moves, i, j);
    }
    var log := Run(moves).log;
    assert log[p].key == log[q].key;
  }

  // ----- counting -----

  function KeysSent(log: seq<Entry>, file: File): set<Key> {
    set i | 0 <= i < |log| && log[i].Sent? && log[i].file == file :: log[i].key
  }

  function PhotoKeys(log: seq<Entry>, file: File): set<Key> {
    set i | 0 <= i < |log| && log[i].Photo? && log[i].file == file :: log[i].key
  }

  lemma KeysSentSnoc(log: seq<Entry>, entry: Entry, file: File)
    ensures KeysSent(log + [entry], file) ==
      KeysSent(log, file) + if entry.Sent? && entry.file == file then {entry.key} else {}
  {
    var longer := log + [entry];
    assert forall i | 0 <= i < |log| :: longer[i] == log[i];
    assert longer[|log|] == entry;
    forall k | k in KeysSent(log, file) ensures k in KeysSent(longer, file) {
      var i :| 0 <= i < |log| && log[i].Sent? && log[i].file == file && log[i].key == k;
      assert longer[i].Sent? && longer[i].file == file && longer[i].key == k;
    }
  }

  lemma LogicalUploadsSnoc(log: seq<Entry>, entry: Entry, file: File)
    ensures var open := Open(log, file);
      LogicalUploads(log + [entry], file) == LogicalUploads(log, file)
        + if entry.Sent? && entry.file == file && (open.None? || log[open.value].altText != entry.altText) then 1 else 0
  {
    assert (log + [entry])[..|log|] == log;
  }

  lemma StepCountsKeys(s: State, m: Move, file: File)
    requires Inv(s) && |KeysSent(s.log, file)| == LogicalUploads(s.log, file)
    ensures var log := Step(s, m).log; |KeysSent(log, file)| == LogicalUploads(log, file)
  {
    hide KeysNameUploads, OnePhotoPerKey, HasPhoto;
    var log := Step(s, m).log;
    if log != s.log {
      assert log == s.log + [log[|s.log|]];
      KeysSentSnoc(s.log, log[|s.log|], file);
      LogicalUploadsSnoc(s.log, log[|s.log|], file);
      OpenIs(s.log, file);
      OpenKeyIsSent(s, file);
    }
  }

  lemma OpenKeyIsSent(s: State, file: File)
    requires BindingsAreOpen(s) && KeysDrawn(s)
    ensures file in s.client.keys ==> s.client.keys[file].key in KeysSent(s.log, file)
    ensures s.client.next !in KeysSent(s.log, file)
  {
    var open := Open(s.log, file);
    assert open.Some? ==> s.log[open.value] == Sent(file, s.client.keys[file].altText, s.client.keys[file].key);
  }

  lemma {:induction false} KeysSentCount(moves: seq<Move>, file: File)
    ensures var log := Run(moves).log; |KeysSent(log, file)| == LogicalUploads(log, file)
    decreases |moves|
  {
    if moves != [] {
      var n := |moves| - 1;
      KeysSentCount(moves[..n], file);
      RunKeepsInv(moves[..n]);
      StepCountsKeys(Run(moves[..n]), moves[n], file);
    }
  }

  lemma {:induction false} PhotosCount(log: seq<Entry>, file: File)
    requires forall p, q | 0 <= p < q < |log| && log[p].Photo? && log[q].Photo? :: log[p].key != log[q].key
    ensures PhotosOf(log, file) == |PhotoKeys(log, file)|
    decreases |log|
  {
    if log != [] {
      var n := |log| - 1;
      var shorter := log[..n];
      assert forall i | 0 <= i < n :: shorter[i] == log[i];
      assert log == shorter + [log[n]];
      PhotosCount(shorter, file);
      PhotoKeysSnoc(shorter, log[n], file);
    }
  }

  lemma PhotoKeysSnoc(log: seq<Entry>, entry: Entry, file: File)
    ensures PhotoKeys(log + [entry], file) ==
      PhotoKeys(log, file) + if entry.Photo? && entry.file == file then {entry.key} else {}
  {
    var longer := log + [entry];
    assert forall i | 0 <= i < |log| :: longer[i] == log[i];
    assert longer[|log|] == entry;
    forall k | k in PhotoKeys(log, file) ensures k in PhotoKeys(longer, file) {
      var i :| 0 <= i < |log| && log[i].Photo? && log[i].file == file && log[i].key == k;
      assert longer[i].Photo? && longer[i].file == file && longer[i].key == k;
    }
  }

  /** The server never holds more photos of a file than the file had logical uploads. */
  lemma PhotosWithinUploads(moves: seq<Move>, file: File)
    ensures var log := Run(moves).log; PhotosOf(log, file) <= LogicalUploads(log, file)
  {
    var log := Run(moves).log;
    RunKeepsInv(moves);
    PhotosCount(log, file);
    KeysSentCount(moves, file);
    forall k | k in PhotoKeys(log, file) ensures k in KeysSent(log, file) {
      var p :| 0 <= p < |log| && log[p].Photo? && log[p].file == file && log[p].key == k;
      var i :| 0 <= i < p && log[i].Sent? && log[i].key == log[p].key && log[i].file == log[p].file;
      assert log[i].key == k;
    }
    SubsetSize(PhotoKeys(log, file), KeysSent(log, file));
  }

  /** Only a success or a definitive rejection of this file, or a new alt text, makes a second upload. */
  lemma RetriesAreOneUpload(moves: seq<Move>, file: File, altText: string)
    requires forall m | m in moves ::
      (m.Attempt? && m.file == file ==> m.altText == altText) && (m.Answer? && m.file == file ==> !Ends(m.error))
    ensures LogicalUploads(Run(moves).log, file) <= 1 && PhotosOf(Run(moves).log, file) <= 1
  {
    OpenAfterRetries(moves, file, altText);
    PhotosWithinUploads(moves, file);
  }

  lemma {:induction false} OpenAfterRetries(moves: seq<Move>, file: File, altText: string)
    requires forall m | m in moves ::
      (m.Attempt? && m.file == file ==> m.altText == altText) && (m.Answer? && m.file == file ==> !Ends(m.error))
    ensures var log := Run(moves).log; var open := Open(log, file);
      if open.None? then LogicalUploads(log, file) == 0
      else LogicalUploads(log, file) == 1 && log[open.value].altText == altText
    decreases |moves|
  {
    if moves != [] {
      var n := |moves| - 1;
      var s, log := Run(moves[..n]), Run(moves).log;
      assert forall m | m in moves[..n] :: m in moves;
      assert moves[n] in moves;
      OpenAfterRetries(moves[..n], file, altText);
      if log != s.log {
        assert log == s.log + [log[|s.log|]];
        OpenSnoc(s.log, log[|s.log|], file);
        LogicalUploadsSnoc(s.log, log[|s.log|], file);
      }
    }
  }

  // ----- what keeps a key and what ends it, with the failures written out -----

  /**
   Lost responses, server errors, timeouts, rate limits and the two conflicts that say the same
   upload is still under way: whatever of these an attempt meets, all attempts on the file
   carry one key, and the server holds at most one photo of it.
   */
  lemma RetryableFailuresKeepTheKey(moves: seq<Move>, file: File, altText: string, i: nat, j: nat)
    requires forall m | m in moves ::
      && (m.Attempt? && m.file == file ==> m.altText == altText)
      && (m.Answer? && m.file == file ==>
            && m.error.Some?
            && match m.error.value
               case Network => true
               case Api(s, c) =>
                 s >= 500 || s == 408 || s == 429
                 || (s == 409 && (c == Some("PHOTO_OPERATION_IN_PROGRESS") || c == Some("PHOTO_OPERATION_FENCE_LOST"))))
    requires var log := Run(moves).log;
      && i < |log| && log[i].Sent? && log[i].file == file
      && j < |log| && log[j].Sent? && log[j].file == file
    ensures Run(moves).log[i].key == Run(moves).log[j].key
    ensures PhotosOf(Run(moves).log, file) <= 1
  {
    RetriesAreOneUpload(moves, file, altText);
    KeysSentCount(moves, file);
    var log := Run(moves).log;
    var keys := KeysSent(log, file);
    assert log[i].key in keys && log[j].key in keys;
    if log[i].key != log[j].key {
      SubsetSize({log[i].key, log[j].key}, keys);
    }
  }

  /**
   A success, or any other answer of the server, ends the upload: no attempt after it carries a
   key that any attempt carried before it.
   */
  lemma DefinitiveAnswersEndTheKey(moves: seq<Move>, i: nat, y: nat, j: nat)
    requires var log := Run(moves).log;
      && i < y < j < |log| && log[i].Sent? && log[y].Settled? && log[j].Sent? && log[j].file == log[y].file
      && (log[y].error.None? || log[y].error.value.Api?)
      && (log[y].error.Some? ==>
            var s, c := log[y].error.value.status, log[y].error.value.code;
            && s < 500 && s != 408 && s != 429
            && (s == 409 ==> c != Some("PHOTO_OPERATION_IN_PROGRESS") && c != Some("PHOTO_OPERATION_FENCE_LOST")))
    ensures Run(moves).log[i].key != Run(moves).log[j].key
  {
    var log := Run(moves).log;
    SameKeyIffOneUpload(moves, i, j);
    assert EndsUpload(log[y], log[j].file);
  }

  /** A new alt text is a new upload: its attempts never carry the key of the old one. */
  lemma NewAltTextHasNewKey(moves: seq<Move>, i: nat, j: nat)
    requires var log := Run(moves).log;
      i < |log| && j < |log| && log[i].Sent? && log[j].Sent? && log[i].altText != log[j].altText
    ensures Run(moves).log[i].key != Run(moves).log[j].key
  {
    if Run(moves).log[i].key == Run(moves).log[j].key {
      KeysAreNeverShared(moves, i, j);
    }
  }

  /** An attempt is sent as it was made. */
  lemma AttemptsAreSent(moves: seq<Move>, file: File, altText: string)
    ensures var before, log := Run(moves).log, Run(moves + [Attempt(file, altText)]).log;
      && |log| == |before| + 1 && before <= log
      && log[|before|].Sent? && log[|before|].file == file && log[|before|].altText == altText
  {
    assert (moves + [Attempt(file, altText)])[..|moves|] == moves;
  }

  /** Once the server has worked on a request, there is a photo of its file under its key. */
  lemma ServedRequestsHaveAPhoto(moves: seq<Move>, i: nat)
    requires i < |Run(moves).log| && Run(moves).log[i].Sent?
    ensures Photo(Run(moves).log[i].file, Run(moves).log[i].key) in Run(moves + [Serve(i)]).log
  {
    var before := Run(moves).log;
    RunKeepsInv(moves);
    assert (moves + [Serve(i)])[..|moves|] == moves;
    if HasPhoto(before, before[i].key) {
      var p :| 0 <= p < |before| && before[p].Photo? && before[p].key == before[i].key;
      var q :| 0 <= q < p && before[q].Sent? && before[q].key == before[p].key && before[q].file == before[p].file;
      KeysAreNeverShared(moves, q, i);
    }
  }

  /** A response settles its file and is in the log with its outcome. */
  lemma AnswersAreLogged(moves: seq<Move>, file: File, error: Option<Failure>)
    ensures Run(moves + [Answer(file, error)]).log == Run(moves).log + [Settled(file, error)]
  {
    assert (moves + [Answer(file, error)])[..|moves|] == moves;
  }
}
