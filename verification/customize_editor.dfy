/**
 * The appearance editor of an actor (`CustomizeEditor`): reads and writes the 26 customisation
 * bytes of a character, both in the actor's appearance state (which overrides the game) and in
 * the game's own customisation buffer, batches writes, and tracks whether the two eyes may have
 * different colours (heterochromia).
 */
module Customization {
  import opened Common

  /** Number of customisation bytes (`CustomizeIndex` runs from 0 to 25). */
  const IndexCount := 26

  /** A `CustomizeIndex`: a position in the customisation buffer. */
  type CustomizeIndex = i: int | 0 <= i < IndexCount

  // The positions this model refers to, with the values of Dalamud's `CustomizeIndex`.
  const Race: CustomizeIndex := 0
  const Gender: CustomizeIndex := 1
  const Tribe: CustomizeIndex := 4
  const FaceType: CustomizeIndex := 5
  const HairStyle: CustomizeIndex := 6
  const EyeColor: CustomizeIndex := 9
  const FaceFeatures: CustomizeIndex := 12
  const EyeColor2: CustomizeIndex := 15
  const RaceFeatureType: CustomizeIndex := 22
  const Facepaint: CustomizeIndex := 24

  /** The game's customisation buffer of a character: exactly one byte per index. */
  type CustomizeData = c: seq<byte> | |c| == IndexCount witness seq(IndexCount, _ => 0)

  /**
   * What the editor sees of an actor: whether it is valid, the appearance state's entries that
   * are set, and the game character's buffer (`None` when `CharacterBaseEx` is null).
   */
  datatype Snapshot = Snapshot(valid: bool, state: map<CustomizeIndex, byte>, chara: Option<CustomizeData>)

  /** What the editor asks of the game after a write. */
  datatype DrawEvent =
    | DrawDataUpdated  // `Human.UpdateDrawData`
    | Redrawn          // `ActorEntity.Redraw`

  // ---------------------------------------------------------------------------------------------
  // Reads

  /** `GetCustomization`: the appearance state wins over the game; an invalid actor reads 0. */
  function GetCustomization(s: Snapshot, index: CustomizeIndex): (r: byte)
    ensures !s.valid ==> r == 0
    ensures s.valid && index in s.state ==> r == s.state[index]
    ensures s.valid && index !in s.state && s.chara.Some? ==> r == s.chara.value[index]
    ensures s.valid && index !in s.state && s.chara.None? ==> r == 0
  {
    if !s.valid then 0
    else if index in s.state then s.state[index]
    else if s.chara.Some? then s.chara.value[index]
    else 0
  }

  /**
   * `IsCurrentValue`: some source holds a value for the index and every source that does holds
   * `value`. Validity of the actor is not consulted.
   */
  predicate IsCurrentValue(s: Snapshot, index: CustomizeIndex, value: byte)
  {
    var hasState := index in s.state;
    var hasChara := s.chara.Some?;
    (hasState || hasChara)
    && (hasState ==> s.state[index] == value)
    && (hasChara ==> s.chara.value[index] == value)
  }

  /** `IsRedrawRequired`: changing race, tribe, gender or face needs a full redraw. */
  predicate IsRedrawRequired(index: CustomizeIndex)
  {
    index == Race || index == Tribe || index == Gender || index == FaceType
  }

  /** The redraw indices are exactly those four positions. */
  lemma RedrawIndices()
    ensures forall i: CustomizeIndex :: IsRedrawRequired(i) <==> i in {0, 1, 4, 5}
  {
  }

  // ---------------------------------------------------------------------------------------------
  // Writes

  /** The actor after `SetCustomizeValue(index, value)`. */
  function Write(s: Snapshot, index: CustomizeIndex, value: byte): Snapshot
  {
    if !s.valid then s
    else s.(state := s.state[index := value],
            chara := if s.chara.Some? then Some(s.chara.value[index := value]) else None)
  }

  /** What `SetCustomizeValue` returns: whether the game character was written too. */
  predicate WriteOk(s: Snapshot)
  {
    s.valid && s.chara.Some?
  }

  /** What the actor holds for one index, in the state and in the game buffer. */
  function Slot(s: Snapshot, j: CustomizeIndex): (Option<byte>, Option<byte>)
  {
    (if j in s.state then Some(s.state[j]) else None,
     if s.chara.Some? then Some(s.chara.value[j]) else None)
  }

  /** Reads depend on validity and the slot alone. */
  lemma ReadsBySlot(s: Snapshot, t: Snapshot, j: CustomizeIndex)
    requires s.valid == t.valid && Slot(s, j) == Slot(t, j)
    ensures GetCustomization(s, j) == GetCustomization(t, j)
    ensures forall v :: IsCurrentValue(s, j, v) == IsCurrentValue(t, j, v)
  {
  }

  /**
   * A write on a valid actor is read back and is current afterwards; every other index keeps
   * its slot. An invalid actor is left alone.
   */
  lemma GetAfterWrite(s: Snapshot, i: CustomizeIndex, v: byte)
    ensures !s.valid ==> Write(s, i, v) == s
    ensures s.valid ==> GetCustomization(Write(s, i, v), i) == v && IsCurrentValue(Write(s, i, v), i, v)
    ensures forall j: CustomizeIndex :: j != i ==> Slot(Write(s, i, v), j) == Slot(s, j)
    ensures Write(s, i, v).valid == s.valid && Write(s, i, v).chara.Some? == s.chara.Some?
  {
  }

  /** A value that is current on a valid actor is what it reads. */
  lemma CurrentIsRead(s: Snapshot, i: CustomizeIndex, v: byte)
    requires s.valid && IsCurrentValue(s, i, v)
    ensures GetCustomization(s, i) == v
  {
  }

  /** The draw calls of `UpdateCustomizeData(redraw)`, given what `UpdateDrawData` reports. */
  function UpdateEvents(hasHuman: bool, redraw: bool, drawDataOk: bool): seq<DrawEvent>
  {
    if !hasHuman then []
    else if redraw then [Redrawn]
    else [DrawDataUpdated] + (if drawDataOk then [] else [Redrawn])
  }

  /**
   * The draw calls of `SetCustomization(index, ...)` on actor `s`: an update, with a redraw for the
   * indices that need one, but only when the game character was written.
   */
  function SetEvents(s: Snapshot, index: CustomizeIndex, hasHuman: bool, drawDataOk: bool): seq<DrawEvent>
  {
    if WriteOk(s) then UpdateEvents(hasHuman, IsRedrawRequired(index), drawDataOk) else []
  }

  /**
   * With a human model the actor is redrawn iff a redraw was asked for or the draw data could not
   * be updated in place, and the draw data is updated iff no redraw was asked for.
   */
  lemma UpdateRedraws(hasHuman: bool, redraw: bool, drawDataOk: bool)
    ensures Redrawn in UpdateEvents(hasHuman, redraw, drawDataOk) <==> hasHuman && (redraw || !drawDataOk)
    ensures DrawDataUpdated in UpdateEvents(hasHuman, redraw, drawDataOk) <==> hasHuman && !redraw
    ensures |UpdateEvents(hasHuman, redraw, drawDataOk)| <= 2
  {
  }

  // ---------------------------------------------------------------------------------------------
  // Batches

  /** One step of `CustomizeBatch.Apply`: skip a current value, else write it and note a redraw. */
  function ApplyStep(s: Snapshot, redraw: bool, index: CustomizeIndex, value: byte): (Snapshot, bool)
  {
    if IsCurrentValue(s, index, value) then (s, redraw)
    else (Write(s, index, value), redraw || (WriteOk(s) && IsRedrawRequired(index)))
  }

  /** `CustomizeBatch.Apply` over the indices in `order`: the actor afterwards and the redraw flag. */
  function ApplyBatch(s: Snapshot, order: seq<CustomizeIndex>, values: map<CustomizeIndex, byte>): (Snapshot, bool)
    requires forall k :: k in order ==> k in values
  {
    if order == [] then (s, false)
    else
      var prior := ApplyBatch(s, order[..|order| - 1], values);
      var index := order[|order| - 1];
      ApplyStep(prior.0, prior.1, index, values[index])
  }

  /** A batch leaves validity, the presence of a game character and every index outside it alone. */
  lemma {:induction false} BatchKeepsOthers(s: Snapshot, order: seq<CustomizeIndex>, values: map<CustomizeIndex, byte>, j: CustomizeIndex)
    requires forall k :: k in order ==> k in values
    requires j !in order
    ensures ApplyBatch(s, order, values).0.valid == s.valid
    ensures ApplyBatch(s, order, values).0.chara.Some? == s.chara.Some?
    ensures Slot(ApplyBatch(s, order, values).0, j) == Slot(s, j)
  {
    if order != [] {
      var init := order[..|order| - 1];
      var index := order[|order| - 1];
      assert j !in init && j != index;
      BatchKeepsOthers(s, init, values, j);
      GetAfterWrite(ApplyBatch(s, init, values).0, index, values[index]);
    }
  }

  /** A batch on a valid actor leaves each of its indices reading the batched value. */
  lemma {:induction false} BatchSets(s: Snapshot, order: seq<CustomizeIndex>, values: map<CustomizeIndex, byte>, k: CustomizeIndex)
    requires forall k :: k in order ==> k in values
    requires NoDups(order) && s.valid && k in order
    ensures GetCustomization(ApplyBatch(s, order, values).0, k) == values[k]
  {
    var init := order[..|order| - 1];
    var index := order[|order| - 1];
    var prior := ApplyBatch(s, init, values).0;
    BatchKeepsOthers(s, init, values, index);
    NoDupsInit(order);
    GetAfterWrite(prior, index, values[index]);
    if k == index {
      if IsCurrentValue(prior, index, values[index]) {
        CurrentIsRead(prior, index, values[index]);
      }
    } else {
      assert k in init;
      BatchSets(s, init, values, k);
      ReadsBySlot(ApplyBatch(s, order, values).0, prior, k);
    }
  }

  /**
   * A batch asks for a redraw exactly when the game character is written and some batched index
   * that needs a redraw held a value other than the batched one.
   */
  lemma {:induction false} BatchRedraw(s: Snapshot, order: seq<CustomizeIndex>, values: map<CustomizeIndex, byte>)
    requires forall k :: k in order ==> k in values
    requires NoDups(order)
    ensures ApplyBatch(s, order, values).1 <==>
              WriteOk(s) && exists k :: k in order && !IsCurrentValue(s, k, values[k]) && IsRedrawRequired(k)
  {
    if order != [] {
      var init := order[..|order| - 1];
      var index := order[|order| - 1];
      assert order == init + [index];
      NoDupsInit(order);
      BatchRedraw(s, init, values);
      BatchKeepsOthers(s, init, values, index);
      ReadsBySlot(ApplyBatch(s, init, values).0, s, index);
    }
  }

  /** A batch whose every value is already current changes nothing and asks for no redraw. */
  lemma {:induction false} BatchSkipsCurrent(s: Snapshot, order: seq<CustomizeIndex>, values: map<CustomizeIndex, byte>)
    requires forall k :: k in order ==> k in values
    requires forall k :: k in order ==> IsCurrentValue(s, k, values[k])
    ensures ApplyBatch(s, order, values) == (s, false)
  {
    if order != [] {
      BatchSkipsCurrent(s, order[..|order| - 1], values);
    }
  }

  /**
   * The batch of `SetEyeColor`: `EyeColor` first, then `EyeColor2` unless heterochromia is on.
   */
  function EyeOrder(hetero: bool): (order: seq<CustomizeIndex>)
    ensures NoDups(order) && EyeColor in order && (EyeColor2 in order <==> !hetero)
  {
    if hetero then [EyeColor] else [EyeColor, EyeColor2]
  }

  /** The values of `SetEyeColor`'s batch: the same colour for every eye in it. */
  function EyeValues(value: byte, hetero: bool): (values: map<CustomizeIndex, byte>)
    ensures forall k :: k in values <==> k in EyeOrder(hetero)
    ensures forall k :: k in values ==> values[k] == value
  {
    if hetero then map[EyeColor := value] else map[EyeColor := value, EyeColor2 := value]
  }

  /**
   * The batch of `SetEyeColor` on a valid actor sets `EyeColor`, and `EyeColor2` unless
   * heterochromia is on; with heterochromia on, `EyeColor2` keeps its slot.
   */
  lemma EyeBatch(s: Snapshot, value: byte, hetero: bool)
    ensures var t := ApplyBatch(s, EyeOrder(hetero), EyeValues(value, hetero)).0;
      && (s.valid ==> GetCustomization(t, EyeColor) == value)
      && (s.valid && !hetero ==> GetCustomization(t, EyeColor2) == value)
      && (hetero ==> Slot(t, EyeColor2) == Slot(s, EyeColor2))
  {
    var order, values := EyeOrder(hetero), EyeValues(value, hetero);
    if s.valid {
      BatchSets(s, order, values, EyeColor);
      if !hetero {
        BatchSets(s, order, values, EyeColor2);
      }
    }
    if hetero {
      BatchKeepsOthers(s, order, values, EyeColor2);
    }
  }

  /** Turning heterochromia off links the eyes: `EyeColor` takes the `EyeColor2` colour. */
  lemma EyesMatchAfterLink(s: Snapshot)
    requires s.valid
    ensures var t := Write(s, EyeColor, GetCustomization(s, EyeColor2));
            GetCustomization(t, EyeColor) == GetCustomization(t, EyeColor2) == GetCustomization(s, EyeColor2)
  {
    GetAfterWrite(s, EyeColor, GetCustomization(s, EyeColor2));
  }

  // ---------------------------------------------------------------------------------------------
  // The actor and the editor

  /** The parts of `ActorEntity` the editor uses. */
  class Actor {
    /** `IsValid`. */
    const isValid: bool
    /** `Appearance.Customize`: the entries that are set. */
    var state: map<CustomizeIndex, byte>
    /** `CharacterBaseEx->Customize`, or null when there is no game character. */
    const chara: array?<byte>
    /** Whether `GetHuman()` finds a human model. */
    const hasHuman: bool
    /** Draw calls made so far. */
    var events: seq<DrawEvent>

    /** The game's buffer has one byte per index. */
    ghost predicate Valid()
    {
      chara != null ==> chara.Length == IndexCount
    }

    constructor (isValid: bool, chara: array?<byte>, hasHuman: bool)
      requires chara != null ==> chara.Length == IndexCount
      ensures Valid() && this.isValid == isValid && this.chara == chara && this.hasHuman == hasHuman
      ensures state == map[] && events == []
    {
      this.isValid := isValid;
      this.chara := chara;
      this.hasHuman := hasHuman;
      state := map[];
      events := [];
    }

    /** What the editor sees of this actor. */
    function View(): Snapshot
      requires Valid()
      reads this, chara
    {
      Snapshot(isValid, state, if chara == null then None else Some(chara[..]))
    }
  }

  class CustomizeEditor {
    const actor: Actor
    var isHetero: bool
    var isHeteroGet: bool

    constructor (actor: Actor)
      ensures this.actor == actor && !isHetero && !isHeteroGet
    {
      this.actor := actor;
      isHetero := false;
      isHeteroGet := false;
    }

    /**
     * `SetCustomizeValue`: a valid actor's state is always written, the game buffer only when
     * there is a character, and the result says whether it was.
     */
    method SetCustomizeValue(index: CustomizeIndex, value: byte) returns (ok: bool)
      requires actor.Valid()
      modifies actor`state, actor.chara
      ensures actor.View() == Write(old(actor.View()), index, value)
      ensures ok == WriteOk(old(actor.View()))
    {
      if !actor.isValid {
        return false;
      }
      actor.state := actor.state[index := value];
      if actor.chara == null {
        return false;
      }
      actor.chara[index] := value;
      assert actor.chara[..] == old(actor.chara[..])[index := value];
      return true;
    }

    /** `UpdateCustomizeData`: with a human model, redraws or updates the draw data in place. */
    method UpdateCustomizeData(redraw: bool, drawDataOk: bool)
      modifies actor`events
      ensures actor.events == old(actor.events) + UpdateEvents(actor.hasHuman, redraw, drawDataOk)
    {
      if !actor.hasHuman {
        return;
      }
      var redo := redraw;
      if !redo {
        actor.events := actor.events + [DrawDataUpdated];
        redo := !drawDataOk;
      }
      if redo {
        actor.events := actor.events + [Redrawn];
      }
    }

    /** `SetCustomization`: a write, then a draw-data update only if the game character was written. */
    method SetCustomization(index: CustomizeIndex, value: byte, drawDataOk: bool)
      requires actor.Valid()
      modifies actor`state, actor.chara, actor`events
      ensures actor.View() == Write(old(actor.View()), index, value)
      ensures actor.events == old(actor.events) + SetEvents(old(actor.View()), index, actor.hasHuman, drawDataOk)
    {
      var ok := SetCustomizeValue(index, value);
      if ok {
        UpdateCustomizeData(IsRedrawRequired(index), drawDataOk);
      }
    }

    /**
     * `GetHeterochromia`: the first query records whether the eye colours differ; later queries
     * can only turn the answer on, so once it is true it stays true until `SetHeterochromia`.
     */
    method GetHeterochromia() returns (r: bool)
      requires actor.Valid()
      modifies this`isHetero, this`isHeteroGet
      ensures var differ := GetCustomization(actor.View(), EyeColor) != GetCustomization(actor.View(), EyeColor2);
              r == (if old(isHeteroGet) then old(isHetero) || differ else differ)
      ensures old(isHeteroGet) && old(isHetero) ==> r
      ensures isHetero == r && isHeteroGet
    {
      var col1 := GetCustomization(actor.View(), EyeColor);
      var col2 := GetCustomization(actor.View(), EyeColor2);
      if !isHeteroGet {
        isHetero := col1 != col2;
        isHeteroGet := true;
      } else {
        isHetero := isHetero || col1 != col2;
      }
      r := isHetero;
    }

    /**
     * `SetHeterochromia`: records the choice; turning it off links the eyes by writing the
     * `EyeColor2` colour into `EyeColor`, with the draw calls of `SetCustomization`.
     */
    method SetHeterochromia(enabled: bool, drawDataOk: bool)
      requires actor.Valid()
      modifies this`isHetero, this`isHeteroGet, actor`state, actor.chara, actor`events
      ensures isHetero == enabled && isHeteroGet
      ensures enabled ==> actor.View() == old(actor.View()) && actor.events == old(actor.events)
      ensures !enabled ==> actor.View() == Write(old(actor.View()), EyeColor, GetCustomization(old(actor.View()), EyeColor2))
      ensures !enabled ==> actor.events == old(actor.events) + SetEvents(old(actor.View()), EyeColor, actor.hasHuman, drawDataOk)
    {
      isHetero := enabled;
      isHeteroGet := true;
      if enabled {
        return;
      }
      var col2 := GetCustomization(actor.View(), EyeColor2);
      SetCustomization(EyeColor, col2, drawDataOk);
    }

    /**
     * `SetEyeColor`: one batch that sets `EyeColor` and, unless heterochromia is on, `EyeColor2`
     * too; the batch makes a single draw-data update.
     */
    method SetEyeColor(value: byte, drawDataOk: bool)
      requires actor.Valid()
      modifies this`isHetero, this`isHeteroGet, actor`state, actor.chara, actor`events
      ensures var differ := GetCustomization(old(actor.View()), EyeColor) != GetCustomization(old(actor.View()), EyeColor2);
              isHeteroGet && isHetero == ((old(isHeteroGet) && old(isHetero)) || differ)
      ensures var (s, redraw) := ApplyBatch(old(actor.View()), EyeOrder(isHetero), EyeValues(value, isHetero));
              actor.View() == s && actor.events == old(actor.events) + UpdateEvents(actor.hasHuman, redraw, drawDataOk)
      ensures old(actor.View()).valid ==> GetCustomization(actor.View(), EyeColor) == value
      ensures old(actor.View()).valid && !isHetero ==> GetCustomization(actor.View(), EyeColor2) == value
      ensures isHetero ==> Slot(actor.View(), EyeColor2) == Slot(old(actor.View()), EyeColor2)
    {
      var batch, hetero := PrepareEyeBatch(value);
      EyeBatch(actor.View(), value, hetero);
      batch.Apply(drawDataOk);
    }

    /** The first lines of `SetEyeColor`: the batch is filled around a `GetHeterochromia` query. */
    method PrepareEyeBatch(value: byte) returns (batch: CustomizeBatch, hetero: bool)
      requires actor.Valid()
      modifies this`isHetero, this`isHeteroGet
      ensures var differ := GetCustomization(actor.View(), EyeColor) != GetCustomization(actor.View(), EyeColor2);
              isHeteroGet && hetero == isHetero == ((old(isHeteroGet) && old(isHetero)) || differ)
      ensures fresh(batch) && batch.editor == this && batch.Valid()
      ensures batch.order == EyeOrder(hetero) && batch.values == EyeValues(value, hetero)
    {
      batch := new CustomizeBatch(this);
      batch.SetCustomization(EyeColor, value);
      hetero := GetHeterochromia();
      if !hetero {
        batch.SetCustomization(EyeColor2, value);
      }
    }
  }

  /** `CustomizeBatch`: values to write, keyed by index, kept in the order the keys were added. */
  class CustomizeBatch {
    const editor: CustomizeEditor
    /** `Values`. */
    var values: map<CustomizeIndex, byte>
    /** The keys of `values` in insertion order (the order the dictionary enumerates them in). */
    var order: seq<CustomizeIndex>

    ghost predicate Valid()
      reads this
    {
      NoDups(order) && (forall k :: k in order ==> k in values) && (forall k :: k in values ==> k in order)
    }

    constructor (editor: CustomizeEditor)
      ensures this.editor == editor && values == map[] && order == [] && Valid()
    {
      this.editor := editor;
      values := map[];
      order := [];
    }

    /** `SetCustomization`: the last value set for an index wins; a new index goes last. */
    method SetCustomization(index: CustomizeIndex, value: byte)
      requires Valid()
      modifies this`values, this`order
      ensures Valid()
      ensures values == old(values)[index := value]
      ensures order == if index in old(values) then old(order) else old(order) + [index]
    {
      if index !in values {
        order := order + [index];
      }
      values := values[index := value];
    }

    /** `SetIfNotNull`: a missing value changes nothing; a present one is `SetCustomization`. */
    method SetIfNotNull(index: CustomizeIndex, value: Option<byte>)
      requires Valid()
      modifies this`values, this`order
      ensures Valid()
      ensures value.None? ==> values == old(values) && order == old(order)
      ensures value.Some? ==> values == old(values)[index := value.value]
      ensures value.Some? ==> order == if index in old(values) then old(order) else old(order) + [index]
    {
      if value.Some? {
        SetCustomization(index, value.value);
      }
    }

    /**
     * `Apply`: every value that is not already current is written, and the draw data is updated
     * once, with a redraw if some written index needs one.
     */
    method Apply(drawDataOk: bool)
      requires Valid() && editor.actor.Valid()
      modifies editor.actor`state, editor.actor.chara, editor.actor`events
      ensures var (s, redraw) := ApplyBatch(old(editor.actor.View()), order, values);
              editor.actor.View() == s &&
              editor.actor.events == old(editor.actor.events) + UpdateEvents(editor.actor.hasHuman, redraw, drawDataOk)
    {
      var redraw := false;
      var k := 0;
      while k < |order|
        invariant 0 <= k <= |order|
        invariant (editor.actor.View(), redraw) == ApplyBatch(old(editor.actor.View()), order[..k], values)
        invariant editor.actor.events == old(editor.actor.events)
      {
        var index := order[k];
        var value := values[index];
        assert order[..k + 1][..k] == order[..k];
        if !IsCurrentValue(editor.actor.View(), index, value) {
          var ok := editor.SetCustomizeValue(index, value);
          redraw := redraw || (ok && IsRedrawRequired(index));
        }
        k := k + 1;
      }
      assert order[..k] == order;
      editor.UpdateCustomizeData(redraw, drawDataOk);
    }
  }
}
