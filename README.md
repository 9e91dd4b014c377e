# Scripple note store in Dafny

Scripple is a Pebble watch app. It keeps a short list of dictated text notes.
The list is shown as a menu. Row 0 is a "+" row that starts dictation. Every
other row shows one note and opens it on a tap. A long press deletes the note.
The list is saved to the watch's persistent storage when the app exits and
read back when it starts.

This project models the one piece of logic in `src/c/scripple.c`: the global
`scripples` record. That record holds a count and a fixed array of
`MAX_NUM_ITEMS` (10) slots of `ITEM_SIZE` (256) bytes each. The project also
models every callback that changes or reads the record.

- `ctext.dfy` (module `CText`): C text as bytes. A string is the bytes before
  its first NUL. `snprintf(buf, size, "%s", t)` keeps at most `size - 1` of
  them.
- `store_model.dfy` (module `StoreModel`): the record as a value (`Store`).
  It has one function per operation: append a dictation, delete a row, save
  to storage, load from storage. It also has the lemmas about them: a
  capacity bound over any run of events, order-preserving deletion, and the
  save/load round trip.
- `scripple.dfy` (module `Scripple`): the record as a class, `DataStore`.
  It holds the count and the slot array, which its methods update in place.
  The shifting delete loop and the load and save loops are written as loops.
  Each method's `ensures` ties the new state, or its result, to the
  `StoreModel` function of the old state.

Persistent storage is a map from integer keys to values. Each value is an
`int` or a string. The count is stored under key 100 and note i under key
100 + i.

## Model

| member | source | states |
|---|---|---|
| `CText.CStr` | src/c/scripple.c:44 | the C string read through `%s` is the longest NUL-free prefix of the bytes: it stops at the end or at a NUL |
| `CText.Snprintf` | src/c/scripple.c:44 | the bounded copy is a NUL-free prefix of the argument, shorter than the buffer, and it stops before `size - 1` bytes only where the C string ends |
| `CText.SnprintfKeepsFittingString` | src/c/scripple.c:44 | a NUL-free string shorter than the buffer is copied unchanged |
| `CText.SnprintfIdempotent` | src/c/scripple.c:44 | copying the copy again through a buffer of the same size changes nothing |
| `StoreModel.IntoSlot` | src/c/scripple.c:32 | what a slot receives fits the 256-byte slot with its terminator, is a prefix of the text, and equals the text when the text already fits |
| `StoreModel.Empty` | src/c/scripple.c:24 | the zero-initialised record is a valid store with no notes |
| `StoreModel.AddDictated` | src/c/scripple.c:26-36 | below capacity the notes become the old notes plus the truncated text at the end; at capacity the record is unchanged; no other slot changes |
| `StoreModel.OnDictation` | src/c/scripple.c:38-46 | a status other than success leaves the record unchanged; on success the effect is that of appending the transcription, because the second bounded copy cuts nothing more |
| `StoreModel.DeleteRow` | src/c/scripple.c:94-105 | row 0 changes nothing; row r shows the old notes with note r - 1 removed, earlier notes in place and later ones one position down; the freed last slot keeps its old bytes |
| `StoreModel.WrittenAt` | src/c/scripple.c:180-184 | after `deinit`'s writes, key 100 holds the count, key 100 + i holds note i - 1 for 1 <= i <= count, and every other key keeps its old value |
| `StoreModel.ReadSlot` | src/c/scripple.c:168 | a stored string is read into the slot cut to the slot size; with no string under the key the slot keeps its contents |
| `StoreModel.Loaded` | src/c/scripple.c:163-170 | with no value at key 100 the store is unchanged; otherwise the count is the stored count and the store stays valid |
| `StoreModel.SaveLoadRoundTrip` | src/c/scripple.c:163-184 | saving any valid store over any storage and loading it into any store gives the same count and the same notes in the same order |
| `StoreModel.Run` | src/c/scripple.c:26-105 | over any run of dictation results and offered long presses the store stays valid: count at most 10, each slot a NUL-free string under 256 bytes |
| `StoreModel.RestartKeepsNotes` | src/c/scripple.c:190-194 | for any run from the empty store, `deinit` then `init` at the next start shows the same notes in the same order |
| `Scripple.DataStore.constructor` | src/c/scripple.c:24 | a new record is valid and empty |
| `Scripple.DataStore.AddDictated` | src/c/scripple.c:26-36 | updates the record in place exactly as `StoreModel.AddDictated` |
| `Scripple.DataStore.OnDictation` | src/c/scripple.c:38-46 | updates the record in place exactly as `StoreModel.OnDictation` |
| `Scripple.DataStore.NumRows` | src/c/scripple.c:48-50 | the menu has one row per note plus the "+" row, so between 1 and 11 rows |
| `Scripple.DataStore.DrawRow` | src/c/scripple.c:52-63 | row 0 and only row 0 draws "+"; row k >= 1 draws note k - 1 |
| `Scripple.DataStore.SelectRow` | src/c/scripple.c:78-92 | row 0 and only row 0 starts dictation; row k >= 1 opens note k - 1 |
| `Scripple.DataStore.LongSelect` | src/c/scripple.c:94-105 | the in-place shifting loop leaves the record equal to `StoreModel.DeleteRow` of the old record |
| `Scripple.DataStore.Save` | src/c/scripple.c:180-184 | the writing loop produces exactly the storage `StoreModel.Saved` describes |
| `Scripple.DataStore.Load` | src/c/scripple.c:163-170 | the reading loop leaves the record equal to `StoreModel.Loaded` of the old record |

## Left out

- Windows, the menu layer, the text layer and the status bar are left out: their creation, destruction and drawing are Pebble SDK calls (src/c/scripple.c:52-59, 65-76, 107-157, 186-187, and all of src/c/status_bar.c). `DrawRow` and `SelectRow` model only which text a row shows or opens.
- The cell-height choice for round watches (src/c/scripple.c:108-122) is left out. It only picks layout constants.
- Creating, starting and destroying the dictation session, and the `printf` of an error, are platform calls and are left out. Only the callback's effect on the store is modelled. The dictation buffer `s_dictated_text` is the argument of `AddDictated` instead of a global.
- `menu_layer_reload_data` (the redraw request) is left out.
- `app_event_loop` and `main` are left out. A run of the event loop is a sequence of `Event`s (`StoreModel.Run`).
- Bytes of persistent storage are not modelled. `persist_write_string` and `persist_read_string` are a put and a get of a string value. A stored note is written as the slot's bytes, which hold no NUL.
- StoreModel.ReadSlot: reading a string from a key that holds an `int` leaves the slot unchanged. On the device it would copy the stored bytes. This is the same outcome as for a missing key.
- Scripple.DataStore.Load: requires the value at key 100 to be an `int` between 0 and 10 (`CountReadable`). The source trusts the stored count and would write past the slot array for a larger one. `deinit` only ever stores such a count (`SaveLoadRoundTrip`).
- Scripple.DataStore.LongSelect: requires the row to be one the menu offers, 0 to `num_items`. The source does not check this. For a larger row it would skip the loop and still decrement the count.
- `NumRows` returns `uint16_t` in the source. With at most 10 notes the result is at most 11, so the conversion never wraps.
