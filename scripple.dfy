/** The global `scripples` store of scripple.c and the callbacks that change
    or read it, as a class updated in place. Each method is proved to do what
    the matching function of StoreModel says. */
module Scripple {
  import opened CText
  import opened StoreModel

  /** What `menu_draw_row_callback` draws in a row. */
  datatype Cell = PlusCell | NoteCell(title: Text)

  /** What `menu_select_callback` does for a row. */
  datatype Selection = StartDictation | ShowDetails(text: Text)

  class DataStore {
    var numItems: int
    const items: array<Text>

    /** The record as a value. */
    ghost function State(): Store
      reads this, items
    {
      Store(numItems, items[..])
    }

    ghost predicate Valid()
      reads this, items
    {
      items.Length == MAX_NUM_ITEMS && StoreModel.Valid(State())
    }

    /** The zero-initialised global: no notes and every slot an empty string. */
    constructor ()
      ensures Valid() && State() == Empty() && fresh(items)
    {
      numItems := 0;
      items := new Text[MAX_NUM_ITEMS](_ => []);
    }

    /** `add_dictated_data_store`, with the dictation buffer as the argument. */
    method AddDictated(dictated: Text)
      requires Valid()
      modifies this, items
      ensures Valid() && State() == StoreModel.AddDictated(old(State()), dictated)
    {
      if numItems + 1 > MAX_NUM_ITEMS {
        return;
      }
      numItems := numItems + 1;
      items[numItems - 1] := IntoSlot(dictated);
    }

    /** `dictation_session_callback`: the transcription is copied into a
        buffer of `ITEM_SIZE` bytes and appended only on success. */
    method OnDictation(status: DictationStatus, transcription: Text)
      requires Valid()
      modifies this, items
      ensures Valid() && State() == StoreModel.OnDictation(old(State()), status, transcription)
    {
      if !status.Success? {
        return;
      }
      var dictated := IntoSlot(transcription);
      AddDictated(dictated);
    }

    /** `menu_get_num_rows_callback`: the "+" row and one row per note. */
    method NumRows() returns (rows: int)
      requires Valid()
      ensures rows == |Notes(State())| + 1
      ensures 1 <= rows <= MAX_NUM_ITEMS + 1
    {
      rows := numItems + 1;
    }

    /** `menu_draw_row_callback`: row 0 shows "+", row k the note k - 1. */
    method DrawRow(row: int) returns (cell: Cell)
      requires Valid() && IsMenuRow(State(), row)
      ensures row == 0 <==> cell == PlusCell
      ensures row >= 1 ==> cell == NoteCell(Notes(State())[row - 1])
    {
      if row == 0 {
        return PlusCell;
      }
      cell := NoteCell(items[row - 1]);
    }

    /** `menu_select_callback`: row 0 starts dictation, row k opens note k - 1. */
    method SelectRow(row: int) returns (selection: Selection)
      requires Valid() && IsMenuRow(State(), row)
      ensures row == 0 <==> selection == StartDictation
      ensures row >= 1 ==> selection == ShowDetails(Notes(State())[row - 1])
    {
      if row == 0 {
        return StartDictation;
      }
      selection := ShowDetails(items[row - 1]);
    }

    /** `menu_long_select_callback`: delete the note shown in `row` by shifting
        the later slots down one, in place. */
    method LongSelect(row: int)
      requires Valid() && IsMenuRow(State(), row)
      modifies this, items
      ensures Valid() && State() == DeleteRow(old(State()), row)
    {
      if row == 0 {
        return;
      }
      var i := row - 1;
      while i < numItems - 1
        invariant row - 1 <= i <= numItems - 1
        invariant numItems == old(numItems)
        invariant forall k | 0 <= k < MAX_NUM_ITEMS && !(row - 1 <= k < i) :: items[k] == old(items[k])
        invariant forall k | row - 1 <= k < i :: items[k] == old(items[k + 1])
      {
        items[i] := items[i + 1];
        i := i + 1;
      }
      numItems := numItems - 1;
    }

    /** The persistence loop of `deinit`: returns the storage `kv` with the
        count and every note written under their keys. */
    method Save(kv: Storage) returns (written: Storage)
      requires Valid()
      ensures written == Saved(kv, State())
    {
      written := kv[DATA_STORE_KEY := IntValue(numItems)];
      var i := 1;
      while i <= numItems
        invariant 1 <= i <= numItems + 1
        invariant written == Written(kv, numItems, items[..i - 1])
      {
        assert items[..i][..i - 1] == items[..i - 1];
        written := written[DATA_STORE_KEY + i := TextValue(items[i - 1])];
        i := i + 1;
      }
    }

    /** The persistence part of `init`: if a count is stored, read it and then
        that many notes into the first slots. */
    method Load(kv: Storage)
      requires Valid() && CountReadable(kv)
      modifies this, items
      ensures Valid() && State() == Loaded(kv, old(State()))
    {
      if DATA_STORE_KEY !in kv {
        return;
      }
      ghost var before := State();
      numItems := kv[DATA_STORE_KEY].n;
      var i := 1;
      while i <= numItems
        invariant 1 <= i <= numItems + 1
        invariant numItems == kv[DATA_STORE_KEY].n
        invariant forall k | i - 1 <= k < MAX_NUM_ITEMS :: items[k] == before.items[k]
        invariant forall k | 0 <= k < i - 1 :: items[k] == ReadSlot(kv, DATA_STORE_KEY + k + 1, before.items[k])
      {
        var key := DATA_STORE_KEY + i;
        if key in kv && kv[key].TextValue? {
          items[i - 1] := IntoSlot(kv[key].t);
        }
        i := i + 1;
      }
      ghost var after := Loaded(kv, before);
      assert forall k | 0 <= k < MAX_NUM_ITEMS :: items[k] == after.items[k];
      assert items[..] == after.items;
    }
  }
}
