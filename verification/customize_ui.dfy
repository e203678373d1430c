/**
 * The value logic of the appearance editor's window (`CustomizeEditorUi`): how a stored byte is
 * shown and how an edited number is written back, which facial-feature bit a button toggles,
 * and the writes behind the tribe, body and icon selectors. Widgets are replaced by their
 * results: whether a button was pressed, or the number an input box returned.
 */
module CustomizeUi {
  import opened Common
  import opened Customization
  import CustomizeDiscovery

  /** A feature of the character-creation data: its name and the values of its parameters. */
  datatype Feature = Feature(name: string, params: seq<int>)

  /** `Gender.Feminine`. */
  const Feminine := 1

  /** `2^k`. */
  function Pow2(k: nat): (p: nat)
    ensures p >= 1
  {
    if k == 0 then 1 else 2 * Pow2(k - 1)
  }

  /** Whether bit `k` of `x` is set (`(x & 2^k) != 0`). */
  predicate IsSet(x: nat, k: nat)
  {
    if k == 0 then x % 2 == 1 else IsSet(x / 2, k - 1)
  }

  /** `x ^ 2^k`: `x` with bit `k` flipped. */
  function FlipBit(x: nat, k: nat): nat
  {
    if k == 0 then (if x % 2 == 1 then x - 1 else x + 1) else 2 * FlipBit(x / 2, k - 1) + x % 2
  }

  /** Flipping a bit below `n` keeps a number below `2^n`. */
  lemma {:induction false} FlipBitBound(x: nat, k: nat, n: nat)
    requires x < Pow2(n) && k < n
    ensures FlipBit(x, k) < Pow2(n)
  {
    var half := Pow2(n - 1);
    assert Pow2(n) == 2 * half;
    if k > 0 {
      assert x / 2 < half;
      FlipBitBound(x / 2, k - 1, n - 1);
      assert FlipBit(x, k) == 2 * FlipBit(x / 2, k - 1) + x % 2;
    } else if x % 2 == 0 {
      assert x + 1 < 2 * half;
    }
  }

  /** `x & ~0x80`: the low seven bits. */
  function Low7(x: byte): byte
  {
    x % 128
  }

  /** `x & 0x80`: bit 7 alone. */
  function Bit7(x: byte): byte
  {
    if x >= 128 then 128 else 0
  }

  /** `v | b` for a `b` that is 0 or 0x80. */
  function OrBit7(v: byte, b: byte): byte
    requires b == 0 || b == 128
  {
    if b == 128 && v < 128 then v + 128 else v
  }

  // ---------------------------------------------------------------------------------------------
  // Feature parameters (`DrawFeatParams`)

  /** `feat.Params.FirstOrDefault()?.Value == 0`: the feature counts its values from 0. */
  predicate ZeroIndexed(feat: Feature)
  {
    |feat.params| > 0 && feat.params[0] == 0
  }

  /** The smallest number the input accepts. */
  function LowerBound(zeroIndexed: bool): int
  {
    if zeroIndexed then 1 else 0
  }

  /** The number shown for a stored byte: its low seven bits, plus one for zero-indexed features. */
  function ShownValue(stored: byte, zeroIndexed: bool): int
  {
    Low7(stored) + (if zeroIndexed then 1 else 0)
  }

  /**
   * The byte written for an accepted input: the input, less one when zero-indexed, truncated to a
   * byte and OR-ed with bit 7 of the stored byte (so a set bit 7 stays set).
   */
  function ParamValue(stored: byte, input: int, zeroIndexed: bool): (r: byte)
    ensures Bit7(stored) == 128 ==> Bit7(r) == 128
  {
    var newValue := ToByte(if zeroIndexed then input - 1 else input);
    OrBit7(newValue, Bit7(stored))
  }

  /** The shown number is always within the accepted range. */
  lemma ShownInRange(stored: byte, zeroIndexed: bool)
    ensures LowerBound(zeroIndexed) <= ShownValue(stored, zeroIndexed) <= LowerBound(zeroIndexed) + 127
  {
  }

  /**
   * Any number the input accepts and can show again is written so that it is shown back as
   * typed, and bit 7 of the stored byte is left as it was.
   */
  lemma ParamRoundTrip(stored: byte, input: int, zeroIndexed: bool)
    requires LowerBound(zeroIndexed) <= input <= LowerBound(zeroIndexed) + 127
    ensures ShownValue(ParamValue(stored, input, zeroIndexed), zeroIndexed) == input
    ensures Bit7(ParamValue(stored, input, zeroIndexed)) == Bit7(stored)
  {
    var low := if zeroIndexed then input - 1 else input;
    assert 0 <= low < 128 && ToByte(low) == low;
  }

  // ---------------------------------------------------------------------------------------------
  // Facial features (`DrawFacialFeaturesGroup`)

  /** The byte written when facial-feature button `k` is pressed: `(byte)(current ^ 2^k)`. */
  function Toggle(current: byte, k: nat): (r: byte)
    requires k < 8
  {
    assert Pow2(8) == 256;
    FlipBitBound(current, k, 8);
    FlipBit(current, k)
  }

  /** Button `k` flips bit `k` and no other bit. */
  lemma {:induction false} ToggleFlipsOneBit(current: nat, k: nat, j: nat)
    ensures IsSet(FlipBit(current, k), j) <==> (IsSet(current, j) != (j == k))
  {
    if k == 0 {
      if j > 0 {
        assert FlipBit(current, 0) / 2 == current / 2;
      }
    } else if j > 0 {
      assert FlipBit(current, k) / 2 == FlipBit(current / 2, k - 1);
      ToggleFlipsOneBit(current / 2, k - 1, j - 1);
    }
  }

  /** Pressing the same button twice restores the byte. */
  lemma {:induction false} ToggleTwice(current: nat, k: nat)
    ensures FlipBit(FlipBit(current, k), k) == current
  {
    if k > 0 {
      var t := FlipBit(current, k);
      assert t / 2 == FlipBit(current / 2, k - 1) && t % 2 == current % 2;
      ToggleTwice(current / 2, k - 1);
    }
  }

  /**
   * The actor after the facial-feature buttons: each pressed button `k` writes `current` with bit
   * `k` flipped, `current` being the byte read before the buttons were drawn.
   */
  function Toggles(s: Snapshot, current: byte, pressed: seq<bool>): Snapshot
    requires |pressed| <= 8
  {
    if pressed == [] then s
    else
      var prior := Toggles(s, current, pressed[..|pressed| - 1]);
      if pressed[|pressed| - 1] then Write(prior, FaceFeatures, Toggle(current, |pressed| - 1)) else prior
  }

  /** How many buttons were pressed. */
  function CountPressed(pressed: seq<bool>): nat
  {
    if pressed == [] then 0 else CountPressed(pressed[..|pressed| - 1]) + (if pressed[|pressed| - 1] then 1 else 0)
  }

  /**
   * With exactly one button `k` pressed, a valid actor's facial features read `current` with bit
   * `k` flipped; with none pressed nothing changes.
   */
  lemma {:induction false} OneToggle(s: Snapshot, current: byte, pressed: seq<bool>, k: nat)
    requires |pressed| <= 8 && k < |pressed|
    requires s.valid && pressed[k] && forall j :: 0 <= j < |pressed| && j != k ==> !pressed[j]
    ensures GetCustomization(Toggles(s, current, pressed), FaceFeatures) == Toggle(current, k)
  {
    var n := |pressed| - 1;
    var init := pressed[..n];
    if k == n {
      NoneToggled(s, current, init);
      GetAfterWrite(s, FaceFeatures, Toggle(current, k));
    } else {
      OneToggle(s, current, init, k);
    }
  }

  /** With no button pressed the actor is unchanged. */
  lemma {:induction false} NoneToggled(s: Snapshot, current: byte, pressed: seq<bool>)
    requires |pressed| <= 8 && forall j :: 0 <= j < |pressed| ==> !pressed[j]
    ensures Toggles(s, current, pressed) == s
  {
    if pressed != [] {
      NoneToggled(s, current, pressed[..|pressed| - 1]);
    }
  }

  /**
   * The draw calls of `count` facial-feature writes: one draw-data update each when the game
   * character is written (the index needs no redraw).
   */
  function ToggleEvents(ok: bool, hasHuman: bool, drawDataOk: bool, count: nat): seq<DrawEvent>
  {
    if count == 0 || !ok then [] else ToggleEvents(ok, hasHuman, drawDataOk, count - 1) + UpdateEvents(hasHuman, false, drawDataOk)
  }

  // ---------------------------------------------------------------------------------------------
  // Icon parameters (`DrawFeatIconParams`)

  /** An icon parameter input is taken unless it is a face type that no parameter offers. */
  predicate IconInputAccepted(index: CustomizeIndex, feat: Feature, input: int)
  {
    index != FaceType || input in feat.params
  }

  /** Face types are checked against the parameter list; every other icon index takes any number. */
  lemma IconInputRules(index: CustomizeIndex, feat: Feature, input: int)
    ensures index == FaceType ==> (IconInputAccepted(index, feat, input) <==> exists k :: 0 <= k < |feat.params| && feat.params[k] == input)
    ensures index != FaceType ==> IconInputAccepted(index, feat, input)
  {
    if index == FaceType && input in feat.params {
      var k :| 0 <= k < |feat.params| && feat.params[k] == input;
    }
  }

  // ---------------------------------------------------------------------------------------------
  // The draw methods, with widget results as parameters

  /** The batch of `DrawTribeSelect`: the chosen tribe and the race it belongs to. */
  function TribeValues(tribe: byte): (values: map<CustomizeIndex, byte>)
    ensures values.Keys == {Tribe, Race} && values[Tribe] == tribe && values[Race] == CustomizeDiscovery.RaceOf(tribe)
  {
    map[Tribe := tribe, Race := CustomizeDiscovery.RaceOf(tribe)]
  }

  /**
   * `DrawFeatParams`: when the feature exists and the input returned a number at or above the
   * lower bound, the parameter is written as `ParamValue`.
   */
  method DrawFeatParams(editor: CustomizeEditor, index: CustomizeIndex, feat: Option<Feature>, input: Option<int>, drawDataOk: bool)
    requires editor.actor.Valid()
    modifies editor.actor`state, editor.actor.chara, editor.actor`events
    ensures var s := old(editor.actor.View());
            var stored := GetCustomization(s, index);
            if feat.Some? && input.Some? && input.value >= LowerBound(ZeroIndexed(feat.value)) then
              && editor.actor.View() == Write(s, index, ParamValue(stored, input.value, ZeroIndexed(feat.value)))
              && editor.actor.events == old(editor.actor.events) + SetEvents(old(editor.actor.View()), index, editor.actor.hasHuman, drawDataOk)
            else
              editor.actor.View() == s && editor.actor.events == old(editor.actor.events)
  {
    if feat.None? {
      return;
    }
    var baseValue := GetCustomization(editor.actor.View(), index);
    var isZeroIndex := ZeroIndexed(feat.value);
    if input.Some? && input.value >= LowerBound(isZeroIndex) {
      editor.SetCustomization(index, ParamValue(baseValue, input.value, isZeroIndex), drawDataOk);
    }
  }

  /** `DrawBodySelect`: the body button writes gender 0 when the current gender is feminine, else 1. */
  method DrawBodySelect(editor: CustomizeEditor, current: byte, pressed: bool, drawDataOk: bool)
    requires editor.actor.Valid()
    modifies editor.actor`state, editor.actor.chara, editor.actor`events
    ensures pressed ==> editor.actor.View() == Write(old(editor.actor.View()), Gender, if current == Feminine then 0 else 1)
    ensures pressed ==> editor.actor.events == old(editor.actor.events) + SetEvents(old(editor.actor.View()), Gender, editor.actor.hasHuman, drawDataOk)
    ensures !pressed ==> editor.actor.View() == old(editor.actor.View()) && editor.actor.events == old(editor.actor.events)
  {
    if pressed {
      editor.SetCustomization(Gender, if current == Feminine then 0 else 1, drawDataOk);
    }
  }

  /**
   * `DrawTribeSelect`: choosing a tribe writes the tribe and its race in one batch, with a single
   * draw-data update, so a valid actor reads both afterwards.
   */
  method DrawTribeSelect(editor: CustomizeEditor, chosen: Option<byte>, drawDataOk: bool)
    requires editor.actor.Valid()
    modifies editor.actor`state, editor.actor.chara, editor.actor`events
    ensures chosen.None? ==> editor.actor.View() == old(editor.actor.View()) && editor.actor.events == old(editor.actor.events)
    ensures chosen.Some? ==>
              var (s, redraw) := ApplyBatch(old(editor.actor.View()), [Tribe, Race], TribeValues(chosen.value));
              editor.actor.View() == s && editor.actor.events == old(editor.actor.events) + UpdateEvents(editor.actor.hasHuman, redraw, drawDataOk)
    ensures chosen.Some? && old(editor.actor.View()).valid ==>
              GetCustomization(editor.actor.View(), Tribe) == chosen.value &&
              GetCustomization(editor.actor.View(), Race) == CustomizeDiscovery.RaceOf(chosen.value)
  {
    if chosen.Some? {
      var tribe := chosen.value;
      var batch := new CustomizeBatch(editor);
      batch.SetCustomization(Tribe, tribe);
      batch.SetCustomization(Race, CustomizeDiscovery.RaceOf(tribe));
      assert batch.order == [Tribe, Race] && batch.values == TribeValues(tribe);
      ghost var s := editor.actor.View();
      batch.Apply(drawDataOk);
      if s.valid {
        BatchSets(s, batch.order, batch.values, Tribe);
        BatchSets(s, batch.order, batch.values, Race);
      }
    }
  }

  /**
   * `DrawFeatIconParams(data, index)`: nothing is drawn without the feature; otherwise an input is
   * written, truncated to a byte, when it is accepted.
   */
  method DrawFeatIconParams(editor: CustomizeEditor, index: CustomizeIndex, feat: Option<Feature>, input: Option<int>, drawDataOk: bool)
    returns (drawn: bool)
    requires editor.actor.Valid()
    modifies editor.actor`state, editor.actor.chara, editor.actor`events
    ensures drawn == feat.Some?
    ensures feat.Some? && input.Some? && IconInputAccepted(index, feat.value, input.value) ==>
              && editor.actor.View() == Write(old(editor.actor.View()), index, ToByte(input.value))
              && editor.actor.events == old(editor.actor.events) + SetEvents(old(editor.actor.View()), index, editor.actor.hasHuman, drawDataOk)
    ensures !(feat.Some? && input.Some? && IconInputAccepted(index, feat.value, input.value)) ==>
              editor.actor.View() == old(editor.actor.View()) && editor.actor.events == old(editor.actor.events)
  {
    if feat.None? {
      return false;
    }
    if input.Some? {
      var valid := index != FaceType || input.value in feat.value.params;
      if valid {
        editor.SetCustomization(index, ToByte(input.value), drawDataOk);
      }
    }
    return true;
  }

  /**
   * `DrawFacialFeaturesGroup`: one button per icon (the feature icons, then the legacy tattoo);
   * button `k` is shown active iff bit `k` of `current` is set, and pressing it writes `current`
   * with that bit flipped.
   */
  method DrawFacialFeaturesGroup(editor: CustomizeEditor, current: byte, pressed: seq<bool>, drawDataOk: bool)
    returns (active: seq<bool>)
    requires editor.actor.Valid() && |pressed| <= 8
    modifies editor.actor`state, editor.actor.chara, editor.actor`events
    ensures |active| == |pressed| && forall k :: 0 <= k < |active| ==> (active[k] <==> IsSet(current, k))
    ensures editor.actor.View() == Toggles(old(editor.actor.View()), current, pressed)
    ensures editor.actor.events == old(editor.actor.events) +
              ToggleEvents(WriteOk(old(editor.actor.View())), editor.actor.hasHuman, drawDataOk, CountPressed(pressed))
  {
    ghost var s := editor.actor.View();
    active := [];
    var i := 0;
    while i < |pressed|
      invariant 0 <= i <= |pressed| && |active| == i
      invariant forall k :: 0 <= k < i ==> (active[k] <==> IsSet(current, k))
      invariant editor.actor.View() == Toggles(s, current, pressed[..i])
      invariant WriteOk(editor.actor.View()) == WriteOk(s)
      invariant editor.actor.events == old(editor.actor.events) +
                  ToggleEvents(WriteOk(s), editor.actor.hasHuman, drawDataOk, CountPressed(pressed[..i]))
    {
      var isActive := IsSet(current, i);
      active := active + [isActive];
      assert pressed[..i + 1][..i] == pressed[..i];
      if pressed[i] {
        GetAfterWrite(editor.actor.View(), FaceFeatures, Toggle(current, i));
        editor.SetCustomization(FaceFeatures, Toggle(current, i), drawDataOk);
      }
      i := i + 1;
    }
    assert pressed[..i] == pressed;
  }

  /** `DrawFacialFeatures`' number input: a returned number is written to the facial features as a byte. */
  method DrawFacialFeatureInput(editor: CustomizeEditor, input: Option<int>, drawDataOk: bool)
    requires editor.actor.Valid()
    modifies editor.actor`state, editor.actor.chara, editor.actor`events
    ensures input.Some? ==> editor.actor.View() == Write(old(editor.actor.View()), FaceFeatures, ToByte(input.value))
    ensures input.Some? ==> editor.actor.events == old(editor.actor.events) + SetEvents(old(editor.actor.View()), FaceFeatures, editor.actor.hasHuman, drawDataOk)
    ensures input.None? ==> editor.actor.View() == old(editor.actor.View()) && editor.actor.events == old(editor.actor.events)
  {
    if input.Some? {
      editor.SetCustomization(FaceFeatures, ToByte(input.value), drawDataOk);
    }
  }
}
