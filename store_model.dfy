/** The note store of scripple.c as a value: the `data_store_t` record, what
    each event the app reacts to does to it, and its image in persistent
    storage. The class in scripple.dfy is proved to follow these functions. */
module StoreModel {
  import opened CText

  const MAX_NUM_ITEMS: nat := 10
  const ITEM_SIZE: nat := 256
  const DATA_STORE_KEY: int := 100

  /** What a `data_t` slot can hold: a C string with its terminator inside `ITEM_SIZE` bytes. */
  predicate IsItem(t: Text) {
    |t| < ITEM_SIZE && NUL !in t
  }

  /** The string left in a slot by a bounded copy of `t` into it. */
  function IntoSlot(t: Text): (r: Text)
    ensures IsItem(r)
    ensures |r| <= |t| && r == t[..|r|]
    ensures IsItem(t) ==> r == t
  {
    Snprintf(t, ITEM_SIZE)
  }

  /** `data_store_t`: the count and all `MAX_NUM_ITEMS` slots, including the
      stale ones past the count. */
  datatype Store = Store(numItems: int, items: seq<Text>)

  predicate Valid(s: Store) {
    && |s.items| == MAX_NUM_ITEMS
    && 0 <= s.numItems <= MAX_NUM_ITEMS
    && forall i | 0 <= i < |s.items| :: IsItem(s.items[i])
  }

  /** The notes the app shows, oldest first. */
  function Notes(s: Store): seq<Text>
    requires Valid(s)
  {
    s.items[..s.numItems]
  }

  /** The zero-initialised global `scripples`. */
  function Empty(): (s: Store)
    ensures Valid(s) && Notes(s) == []
  {
    Store(0, seq(MAX_NUM_ITEMS, _ => []))
  }

  /** `add_dictated_data_store`: append the dictated text unless the store is full. */
  function AddDictated(s: Store, dictated: Text): (r: Store)
    requires Valid(s)
    ensures Valid(r)
    ensures s.numItems < MAX_NUM_ITEMS ==> Notes(r) == Notes(s) + [IntoSlot(dictated)]
    ensures s.numItems == MAX_NUM_ITEMS ==> r == s
    ensures forall i | 0 <= i < MAX_NUM_ITEMS && i != s.numItems :: r.items[i] == s.items[i]
  {
    if s.numItems + 1 > MAX_NUM_ITEMS then s
    else Store(s.numItems + 1, s.items[s.numItems := IntoSlot(dictated)])
  }

  datatype DictationStatus = Success | Failure(code: int)

  /** `dictation_session_callback`: on success, copy the transcription into the
      dictation buffer and append that buffer; on any other status do nothing. */
  function OnDictation(s: Store, status: DictationStatus, transcription: Text): (r: Store)
    requires Valid(s)
    ensures Valid(r)
    ensures !status.Success? ==> r == s
    // the second bounded copy in `add_dictated_data_store` cuts nothing more
    ensures status.Success? ==> r == AddDictated(s, transcription)
  {
    if !status.Success? then s
    else
      SnprintfIdempotent(transcription, ITEM_SIZE);
      AddDictated(s, IntoSlot(transcription))
  }

  /** The rows the menu offers: row 0 is the "+" row, rows 1..numItems the notes. */
  predicate IsMenuRow(s: Store, row: int) {
    0 <= row <= s.numItems
  }

  /** `menu_long_select_callback`: row 0 is kept; any other row's note is
      removed by shifting the later slots down one. */
  function DeleteRow(s: Store, row: int): (r: Store)
    requires Valid(s) && IsMenuRow(s, row)
    ensures Valid(r)
    ensures row == 0 ==> r == s
    ensures row >= 1 ==> Notes(r) == Notes(s)[..row - 1] + Notes(s)[row..]
    // the slot freed at the end keeps its old bytes
    ensures forall i | 0 <= i < MAX_NUM_ITEMS && s.numItems - 1 <= i :: r.items[i] == s.items[i]
  {
    if row == 0 then s
    else
      var shifted := seq(MAX_NUM_ITEMS, i requires 0 <= i < MAX_NUM_ITEMS =>
        if row - 1 <= i < s.numItems - 1 then s.items[i + 1] else s.items[i]);
      var r := Store(s.numItems - 1, shifted);
      assert Notes(r) == Notes(s)[..row - 1] + Notes(s)[row..];
      r
  }

  // ---------------------------------------------------------------------------
  // Persistent storage

  /** A value under a persistent-storage key: an `int` or a string. */
  datatype Value = IntValue(n: int) | TextValue(t: Text)

  /** The platform's persistent key-value storage. */
  type Storage = map<int, Value>

  /** The `deinit` loop: the count at `DATA_STORE_KEY`, then note i (from 1)
      at `DATA_STORE_KEY + i`, written in that order over `kv`. */
  function Written(kv: Storage, count: int, notes: seq<Text>): Storage
    decreases |notes|
  {
    if notes == [] then kv[DATA_STORE_KEY := IntValue(count)]
    else Written(kv, count, notes[..|notes| - 1])[DATA_STORE_KEY + |notes| := TextValue(notes[|notes| - 1])]
  }

  /** What `Written` leaves under each key. */
  lemma {:induction false} WrittenAt(kv: Storage, count: int, notes: seq<Text>, k: int)
    ensures k in Written(kv, count, notes) <==> k in kv || DATA_STORE_KEY <= k <= DATA_STORE_KEY + |notes|
    ensures k == DATA_STORE_KEY ==> Written(kv, count, notes)[k] == IntValue(count)
    ensures DATA_STORE_KEY < k <= DATA_STORE_KEY + |notes| ==>
              Written(kv, count, notes)[k] == TextValue(notes[k - DATA_STORE_KEY - 1])
    ensures k in kv && !(DATA_STORE_KEY <= k <= DATA_STORE_KEY + |notes|) ==>
              Written(kv, count, notes)[k] == kv[k]
    decreases |notes|
  {
    if notes != [] {
      WrittenAt(kv, count, notes[..|notes| - 1], k);
    }
  }

  /** The storage after `deinit` has saved `s` over `kv`. */
  function Saved(kv: Storage, s: Store): Storage
    requires Valid(s)
  {
    Written(kv, s.numItems, Notes(s))
  }

  /** What `init` relies on: a count it can read, within the slots it fills. */
  predicate CountReadable(kv: Storage) {
    DATA_STORE_KEY in kv ==> kv[DATA_STORE_KEY].IntValue? && 0 <= kv[DATA_STORE_KEY].n <= MAX_NUM_ITEMS
  }

  /** `persist_read_string` into a slot: a stored string is copied bounded by
      the slot size; with no string under the key the slot is left as it was. */
  function ReadSlot(kv: Storage, key: int, current: Text): (r: Text)
    requires IsItem(current)
    ensures IsItem(r)
    ensures key in kv && kv[key].TextValue? ==> r == IntoSlot(kv[key].t)
    ensures !(key in kv && kv[key].TextValue?) ==> r == current
  {
    if key in kv && kv[key].TextValue? then IntoSlot(kv[key].t) else current
  }

  /** The store after `init` has loaded `kv` into `s`. */
  function Loaded(kv: Storage, s: Store): (r: Store)
    requires Valid(s) && CountReadable(kv)
    ensures Valid(r)
    ensures DATA_STORE_KEY !in kv ==> r == s
    ensures DATA_STORE_KEY in kv ==> r.numItems == kv[DATA_STORE_KEY].n
  {
    if DATA_STORE_KEY !in kv then s
    else
      var n := kv[DATA_STORE_KEY].n;
      Store(n, seq(MAX_NUM_ITEMS, i requires 0 <= i < MAX_NUM_ITEMS =>
        if i < n then ReadSlot(kv, DATA_STORE_KEY + i + 1, s.items[i]) else s.items[i]))
  }

  /** Saving then loading gives back the same notes in the same order, over
      any previous storage contents and into any store. */
  lemma SaveLoadRoundTrip(kv: Storage, s: Store, into: Store)
    requires Valid(s) && Valid(into)
    ensures CountReadable(Saved(kv, s))
    ensures Loaded(Saved(kv, s), into).numItems == s.numItems
    ensures Notes(Loaded(Saved(kv, s), into)) == Notes(s)
  {
    var saved := Saved(kv, s);
    WrittenAt(kv, s.numItems, Notes(s), DATA_STORE_KEY);
    var r := Loaded(saved, into);
    forall i | 0 <= i < s.numItems
      ensures r.items[i] == s.items[i]
    {
      WrittenAt(kv, s.numItems, Notes(s), DATA_STORE_KEY + i + 1);
    }
  }

  // ---------------------------------------------------------------------------
  // Runs of the app

  /** The events that reach the store. */
  datatype Event =
    | Dictation(status: DictationStatus, transcription: Text)
    | LongSelect(row: int)

  /** The menu offers a long press only on its rows. */
  predicate Offered(s: Store, e: Event) {
    e.LongSelect? ==> IsMenuRow(s, e.row)
  }

  function Step(s: Store, e: Event): (r: Store)
    requires Valid(s) && Offered(s, e)
    ensures Valid(r)
  {
    match e
    case Dictation(status, transcription) => OnDictation(s, status, transcription)
    case LongSelect(row) => DeleteRow(s, row)
  }

  /** Every event of `es` is offered in the state it meets. */
  predicate Playable(s: Store, es: seq<Event>)
    requires Valid(s)
    decreases |es|
  {
    es == [] || (Offered(s, es[0]) && Playable(Step(s, es[0]), es[1..]))
  }

  /** The store after the events `es`: whatever the run, it stays within
      capacity and holds only slot-sized C strings. */
  function Run(s: Store, es: seq<Event>): (r: Store)
    requires Valid(s) && Playable(s, es)
    ensures Valid(r)
    decreases |es|
  {
    if es == [] then s else Run(Step(s, es[0]), es[1..])
  }

  /** Any run from the empty store survives `deinit` followed by `init` on
      restart: the reloaded store shows the same notes in the same order. */
  lemma RestartKeepsNotes(kv: Storage, es: seq<Event>)
    requires Playable(Empty(), es)
    ensures CountReadable(Saved(kv, Run(Empty(), es)))
    ensures Notes(Loaded(Saved(kv, Run(Empty(), es)), Empty())) == Notes(Run(Empty(), es))
  {
    SaveLoadRoundTrip(kv, Run(Empty(), es), Empty());
  }
}
