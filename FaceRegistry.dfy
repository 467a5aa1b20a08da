// The registry of user-registered faces (FontFaceSet): an insertion-ordered
// slot vector plus an index from face id to slot. Deleting or clearing only
// empties slots, so an iterator that walks the slots by position stays valid
// while the set changes, as sets iterate in ECMAScript.
module FaceRegistry {
  import opened Fonts

  /** A registered FontFace: its process-unique id (FontFace.cc draws it
      from a counter) and its descriptor. */
  datatype FontFace = FontFace(id: nat, descriptor: Handle)

  /** The JavaScript argument of add, has and delete. */
  datatype Argument = NoArgument | NotAFontFace | AFace(face: FontFace)

  /** What a call returns, or the TypeError it throws. */
  datatype Outcome<T> = Returned(value: T) | TypeError(message: string)

  const FaceRequired := "face argument is required"
  const ExpectedFontFace := "Expected instance of FontFace"

  /** The faces in the non-empty slots, in slot order. */
  function LiveFaces(data: seq<Option<FontFace>>): seq<FontFace> {
    if data == [] then []
    else (if data[0].Some? then [data[0].value] else []) + LiveFaces(data[1..])
  }

  /** The descriptors of the registered faces, in the order query visits
      them. */
  function LiveHandles(data: seq<Option<FontFace>>): (r: seq<Handle>)
    ensures |r| == |LiveFaces(data)|
    ensures forall k :: 0 <= k < |r| ==> r[k] == LiveFaces(data)[k].descriptor
  {
    var faces := LiveFaces(data);
    seq(|faces|, k requires 0 <= k < |faces| => faces[k].descriptor)
  }

  lemma {:induction false} LiveFacesAppend(data: seq<Option<FontFace>>, x: Option<FontFace>)
    ensures LiveFaces(data + [x]) == LiveFaces(data) + (if x.Some? then [x.value] else [])
  {
    if data == [] {
      assert data + [x] == [x];
    } else {
      assert (data + [x])[1..] == data[1..] + [x];
      LiveFacesAppend(data[1..], x);
    }
  }

  lemma {:induction false} LiveFacesEmptied(data: seq<Option<FontFace>>, i: nat)
    requires i < |data| && data[i].Some?
    ensures |LiveFaces(data[i := None])| == |LiveFaces(data)| - 1
  {
    if i > 0 {
      assert data[i := None][1..] == data[1..][i - 1 := None];
      LiveFacesEmptied(data[1..], i - 1);
    }
  }

  lemma {:induction false} NoLiveFaces(data: seq<Option<FontFace>>)
    requires forall k :: 0 <= k < |data| ==> data[k].None?
    ensures LiveFaces(data) == []
  {
    if data != [] {
      NoLiveFaces(data[1..]);
    }
  }

  /** The first non-empty slot at or after i, or the end. */
  function NextLive(data: seq<Option<FontFace>>, i: nat): (j: nat)
    requires i <= |data|
    ensures i <= j <= |data|
    ensures j < |data| ==> data[j].Some?
    ensures forall k :: i <= k < j ==> data[k].None?
    decreases |data| - i
  {
    if i == |data| || data[i].Some? then i else NextLive(data, i + 1)
  }

  /** Skipping empty slots does not change the faces still to come. */
  lemma {:induction false} SkipEmpty(data: seq<Option<FontFace>>, i: nat)
    requires i <= |data|
    ensures LiveFaces(data[i..]) == LiveFaces(data[NextLive(data, i)..])
    decreases |data| - i
  {
    if i < |data| && data[i].None? {
      assert data[i..][1..] == data[i + 1..];
      SkipEmpty(data, i + 1);
    }
  }

  class FontFaceSet {
    /** Face id to slot index. */
    var facesHash: map<nat, nat>
    /** One slot per add that inserted; an emptied slot is None. */
    var facesData: seq<Option<FontFace>>
    var loaded: set<nat>
    var failed: set<nat>

    /** Every id in the index names the slot holding that face, every
        non-empty slot is indexed under its face's id, and so size counts
        the non-empty slots. */
    ghost predicate Valid()
      reads this
    {
      && (forall id :: id in facesHash ==>
            facesHash[id] < |facesData| && facesData[facesHash[id]].Some?
            && facesData[facesHash[id]].value.id == id)
      && (forall i :: 0 <= i < |facesData| && facesData[i].Some? ==>
            facesData[i].value.id in facesHash && facesHash[facesData[i].value.id] == i)
      && |facesHash| == |LiveFaces(facesData)|
    }

    constructor()
      ensures Valid()
      ensures facesHash == map[] && facesData == []
      ensures loaded == {} && failed == {}
    {
      facesHash := map[];
      facesData := [];
      loaded := {};
      failed := {};
    }

    /** add: a face not yet present gets a new slot at the end; adding a
        present face changes nothing. The source returns the set itself. */
    method Add(arg: Argument) returns (outcome: Outcome<()>)
      requires Valid()
      modifies this
      ensures Valid()
      ensures arg.NoArgument? ==> outcome == TypeError(FaceRequired)
      ensures arg.NotAFontFace? ==> outcome == TypeError(ExpectedFontFace)
      ensures arg.AFace? ==> outcome == Returned(())
      ensures arg.AFace? && arg.face.id !in old(facesHash) ==>
                && facesData == old(facesData) + [Some(arg.face)]
                && facesHash == old(facesHash)[arg.face.id := |old(facesData)|]
      ensures !arg.AFace? || arg.face.id in old(facesHash) ==>
                facesData == old(facesData) && facesHash == old(facesHash)
      ensures loaded == old(loaded) && failed == old(failed)
    {
      match arg {
        case NoArgument => return TypeError(FaceRequired);
        case NotAFontFace => return TypeError(ExpectedFontFace);
        case AFace(face) =>
          if face.id !in facesHash {
            LiveFacesAppend(facesData, Some(face));
            facesHash := facesHash[face.id := |facesData|];
            facesData := facesData + [Some(face)];
          }
          return Returned(());
      }
    }

    /** has: whether a face with this id is registered. */
    method Has(arg: Argument) returns (outcome: Outcome<bool>)
      requires Valid()
      ensures arg.NoArgument? ==> outcome == TypeError(FaceRequired)
      ensures arg.NotAFontFace? ==> outcome == TypeError(ExpectedFontFace)
      ensures arg.AFace? ==> outcome == Returned(arg.face.id in facesHash)
      ensures arg.AFace? ==> outcome == Returned(exists i :: 0 <= i < |facesData| && facesData[i].Some?
                                                           && facesData[i].value.id == arg.face.id)
    {
      match arg {
        case NoArgument => return TypeError(FaceRequired);
        case NotAFontFace => return TypeError(ExpectedFontFace);
        case AFace(face) =>
          if face.id in facesHash {
            assert facesData[facesHash[face.id]].value.id == face.id;
          }
          return Returned(face.id in facesHash);
      }
    }

    /** clear: every slot is emptied (the slots themselves stay) and the
        index is dropped; the load bookkeeping is kept. */
    method Clear()
      requires Valid()
      modifies this
      ensures Valid()
      ensures |facesData| == |old(facesData)| && facesHash == map[]
      ensures forall i :: 0 <= i < |facesData| ==> facesData[i].None?
      ensures LiveFaces(facesData) == []
      ensures loaded == old(loaded) && failed == old(failed)
    {
      var i := 0;
      while i < |facesData|
        invariant i <= |facesData| == |old(facesData)|
        invariant forall k :: 0 <= k < i ==> facesData[k].None?
        invariant forall k :: i <= k < |facesData| ==> facesData[k] == old(facesData)[k]
        invariant loaded == old(loaded) && failed == old(failed)
      {
        facesData := facesData[i := None];
        i := i + 1;
      }
      facesHash := map[];
      NoLiveFaces(facesData);
    }

    /** delete: the face's slot is emptied, its id leaves the index and the
        load bookkeeping; the result says whether it was present. */
    method Delete(arg: Argument) returns (outcome: Outcome<bool>)
      requires Valid()
      modifies this
      ensures Valid()
      ensures arg.NoArgument? ==> outcome == TypeError(FaceRequired)
      ensures arg.NotAFontFace? ==> outcome == TypeError(ExpectedFontFace)
      ensures arg.AFace? ==> outcome == Returned(arg.face.id in old(facesHash))
      ensures arg.AFace? && arg.face.id in old(facesHash) ==>
                && facesData == old(facesData)[old(facesHash)[arg.face.id] := None]
                && facesHash == old(facesHash) - {arg.face.id}
                && loaded == old(loaded) - {arg.face.id}
                && failed == old(failed) - {arg.face.id}
                && |LiveFaces(facesData)| == |LiveFaces(old(facesData))| - 1
      ensures !arg.AFace? || arg.face.id !in old(facesHash) ==>
                && facesData == old(facesData) && facesHash == old(facesHash)
                && loaded == old(loaded) && failed == old(failed)
    {
      match arg {
        case NoArgument => return TypeError(FaceRequired);
        case NotAFontFace => return TypeError(ExpectedFontFace);
        case AFace(face) =>
          if face.id in facesHash {
            var slot := facesHash[face.id];
            LiveFacesEmptied(facesData, slot);
            facesData := facesData[slot := None];
            facesHash := facesHash - {face.id};
            loaded := loaded - {face.id};
            failed := failed - {face.id};
            return Returned(true);
          } else {
            return Returned(false);
          }
      }
    }

    /** size: the number of registered faces, which is the number of faces
        an iteration yields. */
    method Size() returns (n: nat)
      requires Valid()
      ensures n == |facesHash| == |LiveFaces(facesData)|
    {
      n := |facesHash|;
    }
  }

  /** The iterator object: a slot position into the one set. */
  class FaceIterator {
    const faces: FontFaceSet
    var index: nat

    constructor(faces: FontFaceSet)
      ensures this.faces == faces && index == 0
    {
      this.faces := faces;
      index := 0;
    }

    /** next: skip empty slots; return the face of the first non-empty one
        and move past it, or report done with the position at the end. The
        faces yielded one call after another are the live faces from the
        position on, in slot order. */
    method Next() returns (done: bool, value: Option<FontFace>)
      requires index <= |faces.facesData|
      modifies this
      ensures index <= |faces.facesData|
      ensures done == (NextLive(faces.facesData, old(index)) == |faces.facesData|)
      ensures done ==> value.None? && index == |faces.facesData|
      ensures done ==> LiveFaces(faces.facesData[old(index)..]) == []
      ensures !done ==> && index == NextLive(faces.facesData, old(index)) + 1
                        && value == Some(faces.facesData[index - 1].value)
      ensures !done ==> LiveFaces(faces.facesData[old(index)..]) == [value.value] + LiveFaces(faces.facesData[index..])
    {
      ghost var start := index;
      SkipEmpty(faces.facesData, start);
      while index < |faces.facesData|
        invariant start <= index <= |faces.facesData|
        invariant NextLive(faces.facesData, start) == NextLive(faces.facesData, index)
        decreases |faces.facesData| - index
      {
        var entry := faces.facesData[index];
        index := index + 1;
        if entry.Some? {
          assert faces.facesData[index - 1..][1..] == faces.facesData[index..];
          return false, Some(entry.value);
        }
      }
      assert faces.facesData[index..] == [];
      return true, None;
    }
  }

  /** Adding then deleting a new face leaves the same faces registered and
      the same size, though the slot vector has grown by an empty slot. */
  lemma AddThenDelete(data: seq<Option<FontFace>>, face: FontFace)
    ensures LiveFaces((data + [Some(face)])[|data| := None]) == LiveFaces(data)
    ensures |(data + [Some(face)])[|data| := None]| == |data| + 1
  {
    assert (data + [Some(face)])[|data| := None] == data + [None];
    LiveFacesAppend(data, None);
  }

  /** A face added while an iteration is under way is still yielded by it,
      after the faces that were already due. */
  lemma AddDuringIteration(data: seq<Option<FontFace>>, position: nat, face: FontFace)
    requires position <= |data|
    ensures LiveFaces((data + [Some(face)])[position..]) == LiveFaces(data[position..]) + [face]
  {
    assert (data + [Some(face)])[position..] == data[position..] + [Some(face)];
    LiveFacesAppend(data[position..], Some(face));
  }
}
