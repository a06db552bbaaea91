/**
 * The texture slot allocator of the global texture store: one table per
 * in-game texture class, each with a sparse map from slot index to texture
 * description, a high-water mark `maxSlotIndex` and a write cursor
 * `currentEmptySlot`.
 *
 * `Inserted` is the insertion exactly as the code performs it, with no
 * capacity check; `TryInsert` and the `GlobalTextures.InsertTexture` method
 * never write outside the 16-layer backing array: once the cursor has run
 * past it they reclaim the lowest freed layer, and they refuse an insertion
 * only when every layer is taken.
 * The upload of pixel data to the GPU is recorded as a `LayerWrite` event.
 */
module TextureSlots {

  datatype Option<T> = None | Some(value: T)

  /** The in-game texture classes; `InGameTextureTypeCount` of them. */
  datatype InGameTextureType = RGBA8_1024 | R8_1024 {
    /** The position of this class in the texture dictionary (the enumerator's value). */
    function Index(): (i: nat)
      ensures i < InGameTextureTypeCount
    {
      match this
      case RGBA8_1024 => 0
      case R8_1024 => 1
    }
  }

  const InGameTextureTypeCount: nat := 2

  /** Number of layers of each backing texture array. */
  const LayerCount: nat := 16

  /** A texture description; its contents are never inspected by the allocator. */
  datatype TextureDesc = TextureDesc(id: nat)

  /** The pixel payload of a texture; only handed on to the GPU upload. */
  datatype Pixels = Pixels(id: nat)

  /** One texture class: its backing array and its slot bookkeeping. */
  datatype TextureArray = TextureArray(
    textureArrayName: string,
    textureArrayDescription: string,
    layerCount: nat,
    textureDescriptions: map<nat, TextureDesc>,
    maxSlotIndex: nat,
    currentEmptySlot: nat)

  /** The upload of a payload to one layer of a class's backing array. */
  datatype LayerWrite = LayerWrite(textureType: InGameTextureType, layer: nat, pixels: Pixels)

  /** The state `InitTextureDiction` gives a class that held no descriptions. */
  function InitialTextureArray(t: InGameTextureType): (r: TextureArray)
    ensures r.layerCount == LayerCount
    ensures r.maxSlotIndex == 0 && r.currentEmptySlot == 0 && |r.textureDescriptions| == 0
    ensures Packed(r) && SlotInvariant(r) && Bounded(r)
  {
    match t
    case RGBA8_1024 =>
      TextureArray("RGBA8TextureArray", "RGBA8, size16, mipLevel11", LayerCount, map[], 0, 0)
    case R8_1024 =>
      TextureArray("R8TextureArray", "R8, size16, mipLevel11", LayerCount, map[], 0, 0)
  }

  /** Some slot below `bound` holds no description. */
  predicate HasHole(descs: map<nat, TextureDesc>, bound: nat) {
    exists j: nat :: j < bound && j !in descs
  }

  /** The lowest slot in `[from, bound)` that holds no description, if there is one. */
  function FirstFreeFrom(descs: map<nat, TextureDesc>, from: nat, bound: nat): (r: Option<nat>)
    decreases bound - from
    ensures r.Some? ==> from <= r.value < bound && r.value !in descs
    ensures r.Some? ==> forall j: nat :: from <= j < r.value ==> j in descs
    ensures r.None? ==> forall j: nat :: from <= j < bound ==> j in descs
  {
    if from >= bound then None
    else if from !in descs then Some(from)
    else FirstFreeFrom(descs, from + 1, bound)
  }

  /**
   * Bookkeeping that every insertion keeps: the cursor is a free slot no
   * higher than the high-water mark, and no description sits above the mark.
   */
  ghost predicate SlotInvariant(ta: TextureArray) {
    && ta.currentEmptySlot <= ta.maxSlotIndex
    && ta.currentEmptySlot !in ta.textureDescriptions
    && forall j :: j in ta.textureDescriptions ==> j <= ta.maxSlotIndex
  }

  /** The shape of a class that only ever saw insertions: slots `0 .. maxSlotIndex-1` full, cursor at the mark. */
  ghost predicate Packed(ta: TextureArray) {
    && ta.currentEmptySlot == ta.maxSlotIndex
    && forall j: nat :: j in ta.textureDescriptions <==> j < ta.maxSlotIndex
  }

  /** Every recorded slot is a layer of the backing array. */
  ghost predicate Bounded(ta: TextureArray) {
    forall j :: j in ta.textureDescriptions ==> j < ta.layerCount
  }

  /**
   * One insertion as the code performs it: record `desc` at the cursor, then
   * move the cursor to the lowest free slot below the high-water mark, or, if
   * there is none, to one past the mark and raise the mark to it.
   */
  function Inserted(ta: TextureArray, desc: TextureDesc): (r: TextureArray)
    ensures r.textureArrayName == ta.textureArrayName
    ensures r.textureArrayDescription == ta.textureArrayDescription
    ensures r.layerCount == ta.layerCount
    ensures ta.currentEmptySlot in r.textureDescriptions
    ensures r.textureDescriptions[ta.currentEmptySlot] == desc
    ensures forall j :: j != ta.currentEmptySlot ==> (j in r.textureDescriptions <==> j in ta.textureDescriptions)
    ensures forall j :: j != ta.currentEmptySlot && j in ta.textureDescriptions ==>
      r.textureDescriptions[j] == ta.textureDescriptions[j]
    ensures HasHole(r.textureDescriptions, ta.maxSlotIndex) ==>
      && r.maxSlotIndex == ta.maxSlotIndex
      && r.currentEmptySlot < ta.maxSlotIndex
      && r.currentEmptySlot !in r.textureDescriptions
      && forall j: nat :: j < r.currentEmptySlot ==> j in r.textureDescriptions
    ensures !HasHole(r.textureDescriptions, ta.maxSlotIndex) ==>
      r.currentEmptySlot == r.maxSlotIndex == ta.maxSlotIndex + 1
    ensures SlotInvariant(ta) ==> SlotInvariant(r)
    ensures Packed(ta) ==> Packed(r) && r.maxSlotIndex == ta.maxSlotIndex + 1
  {
    var descs := ta.textureDescriptions[ta.currentEmptySlot := desc];
    match FirstFreeFrom(descs, 0, ta.maxSlotIndex)
    case Some(i) =>
      ta.(textureDescriptions := descs, currentEmptySlot := i)
    case None =>
      ta.(textureDescriptions := descs, currentEmptySlot := ta.maxSlotIndex + 1, maxSlotIndex := ta.maxSlotIndex + 1)
  }

  /**
   * The layer an insertion that never writes outside the backing array
   * uses: the cursor while it is a layer of the array, and once it has run
   * past the array the lowest layer whose description was removed; none when
   * every layer is taken.
   */
  function InsertionSlot(ta: TextureArray): (r: Option<nat>)
    ensures r.Some? <==> ta.currentEmptySlot < ta.layerCount || HasHole(ta.textureDescriptions, ta.layerCount)
    ensures r.Some? ==> r.value < ta.layerCount
    ensures ta.currentEmptySlot < ta.layerCount ==> r == Some(ta.currentEmptySlot)
    ensures ta.currentEmptySlot >= ta.layerCount && r.Some? ==>
      && r.value !in ta.textureDescriptions
      && forall j: nat :: j < r.value ==> j in ta.textureDescriptions
  {
    if ta.currentEmptySlot < ta.layerCount then Some(ta.currentEmptySlot)
    else FirstFreeFrom(ta.textureDescriptions, 0, ta.layerCount)
  }

  /**
   * An insertion that never writes outside the backing array: it records at
   * `InsertionSlot` and then moves the cursor on as the code does, and fails,
   * changing nothing, only when every layer of the array is taken.
   */
  function TryInsert(ta: TextureArray, desc: TextureDesc): (r: Option<TextureArray>)
    ensures r.Some? <==> InsertionSlot(ta).Some?
    ensures ta.currentEmptySlot < ta.layerCount ==> r == Some(Inserted(ta, desc))
    ensures r.Some? ==> r.value == Inserted(ta.(currentEmptySlot := InsertionSlot(ta).value), desc)
    ensures r.Some? ==>
      && InsertionSlot(ta).value in r.value.textureDescriptions
      && r.value.textureDescriptions[InsertionSlot(ta).value] == desc
    ensures r.Some? && Bounded(ta) ==> Bounded(r.value)
    ensures r.Some? && SlotInvariant(ta) ==> SlotInvariant(r.value)
  {
    match InsertionSlot(ta)
    case None => None
    case Some(slot) => Some(Inserted(ta.(currentEmptySlot := slot), desc))
  }

  /** The class after inserting `descs` in order, as the code does it. */
  function InsertAll(ta: TextureArray, descs: seq<TextureDesc>): (r: TextureArray)
    ensures r.layerCount == ta.layerCount
    ensures SlotInvariant(ta) ==> SlotInvariant(r)
  {
    if |descs| == 0 then ta else Inserted(InsertAll(ta, descs[..|descs| - 1]), descs[|descs| - 1])
  }

  /**
   * From a freshly initialised class, `k` insertions fill slots `0 .. k-1` in
   * order with the inserted descriptions and leave both the high-water mark
   * and the cursor at `k`.
   */
  lemma {:induction false} FreshInsertions(t: InGameTextureType, descs: seq<TextureDesc>)
    ensures var r := InsertAll(InitialTextureArray(t), descs);
      && r.maxSlotIndex == |descs| && r.currentEmptySlot == |descs|
      && (forall j: nat :: j in r.textureDescriptions <==> j < |descs|)
      && forall j: nat :: j < |descs| ==> r.textureDescriptions[j] == descs[j]
  {
    var r := InsertAll(InitialTextureArray(t), descs);
    if |descs| > 0 {
      var init := descs[..|descs| - 1];
      FreshInsertions(t, init);
      var p := InsertAll(InitialTextureArray(t), init);
      assert r == Inserted(p, descs[|descs| - 1]);
      forall j: nat | j < |descs|
        ensures r.textureDescriptions[j] == descs[j]
      {
        if j < |init| {
          assert init[j] == descs[j];
        }
      }
    }
  }

  /**
   * After sixteen insertions into a fresh class the cursor is 16: the
   * seventeenth insertion, as written, records and uploads to layer 16 of a
   * 16-layer array.
   */
  lemma SeventeenthInsertionOverflows(t: InGameTextureType, descs: seq<TextureDesc>, desc: TextureDesc)
    requires |descs| == 16
    ensures var p := InsertAll(InitialTextureArray(t), descs);
      && p.currentEmptySlot == p.layerCount == 16
      && 16 in Inserted(p, desc).textureDescriptions
  {
    FreshInsertions(t, descs);
  }

  /**
   * With no slot freed, the bounded insertion accepts the first sixteen
   * textures of a fresh class and refuses every later one.
   */
  lemma RefusesOnlyBeyondCapacity(t: InGameTextureType, descs: seq<TextureDesc>, desc: TextureDesc)
    ensures var p := InsertAll(InitialTextureArray(t), descs);
      TryInsert(p, desc).Some? <==> |descs| < 16
  {
    FreshInsertions(t, descs);
  }

  /**
   * In a class whose every layer was filled by insertions, a layer freed out
   * of band is the target of the next bounded insertion, which records there
   * and keeps every other description; with every layer taken again, the
   * insertion after it is refused.
   */
  lemma FullClassReclaimsFreedLayer(ta: TextureArray, freed: nat, desc: TextureDesc, next: TextureDesc)
    requires Packed(ta) && ta.maxSlotIndex == ta.layerCount && freed < ta.layerCount
    ensures var p := ta.(textureDescriptions := ta.textureDescriptions - {freed});
      var r := TryInsert(p, desc);
      && InsertionSlot(p) == Some(freed)
      && r.Some?
      && r.value.textureDescriptions == ta.textureDescriptions[freed := desc]
      && TryInsert(r.value, next).None?
  {
    var p := ta.(textureDescriptions := ta.textureDescriptions - {freed});
    assert HasHole(p.textureDescriptions, p.layerCount) by {
      assert freed !in p.textureDescriptions;
    }
    var r := TryInsert(p, desc).value;
    assert r.textureDescriptions == ta.textureDescriptions[freed := desc];
    assert !HasHole(r.textureDescriptions, r.layerCount) by {
      forall j: nat | j < r.layerCount
        ensures j in r.textureDescriptions
      {
        assert j in ta.textureDescriptions;
      }
    }
  }

  /**
   * The capacity scenario from a fresh class: after sixteen insertions, free
   * one layer; the next bounded insertion records at that layer and the one
   * after it is refused.
   */
  lemma SixteenInsertionsThenFreedLayer(t: InGameTextureType, descs: seq<TextureDesc>, freed: nat,
                                        desc: TextureDesc, next: TextureDesc)
    requires |descs| == 16 && freed < 16
    ensures var full := InsertAll(InitialTextureArray(t), descs);
      var p := full.(textureDescriptions := full.textureDescriptions - {freed});
      var r := TryInsert(p, desc);
      && InsertionSlot(p) == Some(freed)
      && r.Some?
      && r.value.textureDescriptions[freed] == desc
      && TryInsert(r.value, next).None?
  {
    FreshInsertions(t, descs);
    FullClassReclaimsFreedLayer(InsertAll(InitialTextureArray(t), descs), freed, desc, next);
  }

  /**
   * A slot freed out of band in a class that only saw insertions is not the
   * target of the next insertion: that one still goes to the cursor at the
   * high-water mark, and only then does the scan move the cursor to the freed
   * slot.
   */
  lemma FreedSlotReusedAfterNext(ta: TextureArray, freed: nat, desc: TextureDesc)
    requires Packed(ta) && freed < ta.maxSlotIndex
    ensures var r := Inserted(ta.(textureDescriptions := ta.textureDescriptions - {freed}), desc);
      && r.textureDescriptions[ta.maxSlotIndex] == desc
      && freed !in r.textureDescriptions
      && r.currentEmptySlot == freed
      && r.maxSlotIndex == ta.maxSlotIndex
  {
    var r := Inserted(ta.(textureDescriptions := ta.textureDescriptions - {freed}), desc);
    assert freed !in r.textureDescriptions;
    assert HasHole(r.textureDescriptions, ta.maxSlotIndex);
  }

  /** A binding kind of the uniform layout; texture stores only use combined image samplers. */
  datatype UniformVarType = CombinedSampler

  /** One entry of a uniform layout: its binding kind and its shader-visible name. */
  datatype UniformVarList = UniformVarList(varType: UniformVarType, name: string)

  /** The bindings the global texture store exposes: six samplers with distinct names. */
  function PrepareUniformVarList(): (r: seq<UniformVarList>)
    ensures |r| == 6
    ensures forall k, l :: 0 <= k < l < |r| ==> r[k].name != r[l].name
  {
    [
      UniformVarList(CombinedSampler, "RGBA8_1024_Texture_Array"),
      UniformVarList(CombinedSampler, "R8_1024_Texture_Array"),
      UniformVarList(CombinedSampler, "RGBA8_1024_Texture_Cube_SkyBox"),
      UniformVarList(CombinedSampler, "R8_512_Texture_Cube_Irradiance"),
      UniformVarList(CombinedSampler, "RGBA8_512_Texture_Cube_PrefilterEnv"),
      UniformVarList(CombinedSampler, "R8_512_Texture_2D_BRDFLUT")
    ]
  }

  /** Scans the layers `0 .. layerCount-1` for the lowest one that holds no description. */
  method LowestFreeLayer(descs: map<nat, TextureDesc>, layerCount: nat) returns (layer: Option<nat>)
    ensures layer == FirstFreeFrom(descs, 0, layerCount)
  {
    var i := 0;
    while i < layerCount
      invariant i <= layerCount
      invariant forall j: nat :: j < i ==> j in descs
    {
      if i !in descs {
        return Some(i);
      }
      i := i + 1;
    }
    return None;
  }

  /**
   * A consistent store: one entry per class, each keeping its slot
   * bookkeeping with every description inside its backing array, and every
   * logged upload aimed at a layer of its class's array.
   */
  ghost predicate ValidStore(diction: seq<TextureArray>, writes: seq<LayerWrite>) {
    && |diction| == InGameTextureTypeCount
    && (forall k :: 0 <= k < |diction| ==> SlotInvariant(diction[k]) && Bounded(diction[k]))
    && forall w :: w in writes ==> w.layer < diction[w.textureType.Index()].layerCount
  }

  /** A bounded insertion into one class, logged as an upload to the layer it used, keeps the store consistent. */
  lemma InsertionKeepsStoreValid(diction: seq<TextureArray>, writes: seq<LayerWrite>, t: InGameTextureType,
                                 desc: TextureDesc, pixels: Pixels)
    requires ValidStore(diction, writes) && InsertionSlot(diction[t.Index()]).Some?
    ensures ValidStore(diction[t.Index() := TryInsert(diction[t.Index()], desc).value],
                       writes + [LayerWrite(t, InsertionSlot(diction[t.Index()]).value, pixels)])
  {
    var k := t.Index();
    var d := diction[k := TryInsert(diction[k], desc).value];
    forall w | w in writes + [LayerWrite(t, InsertionSlot(diction[k]).value, pixels)]
      ensures w.layer < d[w.textureType.Index()].layerCount
    {
      if w !in writes {
        assert w.layer == InsertionSlot(diction[k]).value;
      }
    }
  }

  /** The global texture store: one `TextureArray` per in-game texture class and the log of layer uploads. */
  class GlobalTextures {
    var textureDiction: seq<TextureArray>
    var layerWrites: seq<LayerWrite>

    /** Every class keeps its slot bookkeeping and no description or upload lies outside its backing array. */
    ghost predicate Valid()
      reads this
    {
      ValidStore(textureDiction, layerWrites)
    }

    /** Creation: an empty dictionary filled by `InitTextureDiction`, and no uploads yet. */
    constructor ()
      ensures Valid()
      ensures forall t: InGameTextureType :: textureDiction[t.Index()] == InitialTextureArray(t)
      ensures layerWrites == []
    {
      textureDiction := [];
      layerWrites := [];
      new;
      InitTextureDiction();
      assert textureDiction[0] == InitialTextureArray(RGBA8_1024);
      assert textureDiction[1] == InitialTextureArray(R8_1024);
    }

    /**
     * Resizes the dictionary to one entry per texture class and resets each
     * class's name, description, backing array and counters. The description
     * map of an entry that already existed is not reset.
     */
    method InitTextureDiction()
      modifies this
      ensures |textureDiction| == InGameTextureTypeCount
      ensures forall t: InGameTextureType ::
        (textureDiction[t.Index()] == InitialTextureArray(t).(textureDescriptions :=
          if t.Index() < |old(textureDiction)| then old(textureDiction)[t.Index()].textureDescriptions else map[]))
      ensures layerWrites == old(layerWrites)
    {
      var empty := TextureArray("", "", 0, map[], 0, 0);
      var previous := textureDiction;
      textureDiction := seq(InGameTextureTypeCount,
        k requires 0 <= k => if k < |previous| then previous[k] else empty);

      var rgba := RGBA8_1024.Index();
      textureDiction := textureDiction[rgba := textureDiction[rgba].(textureArrayName := "RGBA8TextureArray")];
      textureDiction := textureDiction[rgba := textureDiction[rgba].(textureArrayDescription := "RGBA8, size16, mipLevel11")];
      textureDiction := textureDiction[rgba := textureDiction[rgba].(layerCount := LayerCount)];
      textureDiction := textureDiction[rgba := textureDiction[rgba].(maxSlotIndex := 0)];
      textureDiction := textureDiction[rgba := textureDiction[rgba].(currentEmptySlot := 0)];

      var r8 := R8_1024.Index();
      textureDiction := textureDiction[r8 := textureDiction[r8].(textureArrayName := "R8TextureArray")];
      textureDiction := textureDiction[r8 := textureDiction[r8].(textureArrayDescription := "R8, size16, mipLevel11")];
      textureDiction := textureDiction[r8 := textureDiction[r8].(layerCount := LayerCount)];
      textureDiction := textureDiction[r8 := textureDiction[r8].(maxSlotIndex := 0)];
      textureDiction := textureDiction[r8 := textureDiction[r8].(currentEmptySlot := 0)];
    }

    /**
     * Stores `desc` at the class's cursor, uploads `pixels` to that layer and
     * moves the cursor on (see `Inserted`). Once the cursor has run past the
     * backing array, the lowest layer whose description was removed is used
     * instead, and the insertion is refused, changing nothing, when there is
     * none (see `TryInsert`). Only the entry of class `t` changes.
     */
    method InsertTexture(t: InGameTextureType, desc: TextureDesc, pixels: Pixels) returns (inserted: bool)
      requires Valid()
      modifies this
      ensures Valid()
      ensures inserted <==> InsertionSlot(old(textureDiction[t.Index()])).Some?
      ensures inserted ==>
        && textureDiction == old(textureDiction)[t.Index() := TryInsert(old(textureDiction[t.Index()]), desc).value]
        && layerWrites == old(layerWrites) + [LayerWrite(t, InsertionSlot(old(textureDiction[t.Index()])).value, pixels)]
      ensures !inserted ==> textureDiction == old(textureDiction) && layerWrites == old(layerWrites)
    {
      var k := t.Index();
      ghost var entry := textureDiction[k];
      var emptySlot := textureDiction[k].currentEmptySlot;
      if emptySlot >= textureDiction[k].layerCount {
        // The cursor is past the backing array: reclaim the lowest freed layer, if any.
        var reclaimed := LowestFreeLayer(textureDiction[k].textureDescriptions, textureDiction[k].layerCount);
        if reclaimed.None? {
          return false;
        }
        emptySlot := reclaimed.value;
      }
      assert InsertionSlot(textureDiction[k]) == Some(emptySlot);
      ghost var before := textureDiction[k].(currentEmptySlot := emptySlot);
      textureDiction := textureDiction[k := textureDiction[k].(textureDescriptions := textureDiction[k].textureDescriptions[emptySlot := desc])];
      layerWrites := layerWrites + [LayerWrite(t, emptySlot, pixels)];
      ghost var written := textureDiction;
      ghost var logged := layerWrites;

      // Find the lowest slot below the high-water mark that holds no description.
      var found := false;
      var i := 0;
      while i < textureDiction[k].maxSlotIndex
        invariant i <= textureDiction[k].maxSlotIndex
        invariant textureDiction == written && layerWrites == logged && !found
        invariant forall j: nat :: j < i ==> j in textureDiction[k].textureDescriptions
      {
        if i !in textureDiction[k].textureDescriptions {
          textureDiction := textureDiction[k := textureDiction[k].(currentEmptySlot := i)];
          found := true;
          break;
        }
        i := i + 1;
      }

      // No free slot within: the cursor and the mark move one past the mark.
      if !found {
        textureDiction := textureDiction[k := textureDiction[k].(currentEmptySlot := textureDiction[k].maxSlotIndex + 1)];
        textureDiction := textureDiction[k := textureDiction[k].(maxSlotIndex := textureDiction[k].currentEmptySlot)];
      }
      assert textureDiction[k] == Inserted(before, desc) == TryInsert(entry, desc).value;
      assert textureDiction == old(textureDiction)[k := textureDiction[k]];
      InsertionKeepsStoreValid(old(textureDiction), old(layerWrites), t, desc, pixels);
      return true;
    }
  }
}
