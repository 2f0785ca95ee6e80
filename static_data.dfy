/**
 * Constant static data objects: a named block of bytes with an alignment.
 * The object is created only through Create() and is never copied; data()
 * hands out the object's own byte vector, so writes through it stay with
 * the object.
 */
module StaticData {

  /** Values of a C++ int. */
  newtype Int32 = n: int | -0x8000_0000 <= n < 0x8000_0000

  /** std::vector<std::uint8_t>: a growable vector of bytes that callers may write. */
  class ByteVector {
    var elements: seq<bv8>

    constructor ()
      ensures elements == []
    {
      elements := [];
    }

    method PushBack(b: bv8)
      modifies this
      ensures elements == old(elements) + [b]
    {
      elements := elements + [b];
    }

    method Set(i: nat, b: bv8)
      requires i < |elements|
      modifies this
      ensures elements == old(elements)[i := b]
    {
      elements := elements[i := b];
    }
  }

  class StaticDataObject {
    var name: string
    var alignment: Int32
    /** data_: the vector itself is the object's; only its elements change. */
    const data: ByteVector

    /** A fresh object: empty name, alignment 0, empty data. */
    predicate IsFresh()
      reads this, data
    {
      name == "" && alignment == 0 && data.elements == []
    }

    /** The private default constructor. */
    constructor ()
      ensures IsFresh()
      ensures fresh(data)
    {
      name := "";
      alignment := 0;
      data := new ByteVector();
    }

    /** Create(): a new object, shared through a pointer. */
    static method Create() returns (p: StaticDataObject)
      ensures fresh(p) && fresh(p.data)
      ensures p.IsFresh()
    {
      p := new StaticDataObject();
    }

    /** set_name(n): changes the name only, and returns the object itself. */
    method SetName(n: string) returns (r: StaticDataObject)
      modifies this
      ensures r == this
      ensures name == n && alignment == old(alignment)
      ensures data.elements == old(data.elements)
    {
      name := n;
      r := this;
    }

    /** set_alignment(a): CHECK(a >= 0); changes the alignment only, and returns the object itself. */
    method SetAlignment(a: Int32) returns (r: StaticDataObject)
      requires a >= 0
      modifies this
      ensures r == this
      ensures alignment == a && name == old(name)
      ensures data.elements == old(data.elements)
    {
      alignment := a;
      r := this;
    }

    /** data(): the object's own vector, not a copy. */
    function Data(): ByteVector {
      data
    }
  }

  /**
   * A freshly created object described in one chain of calls: named,
   * aligned and given its bytes through data(); each part lands where it
   * belongs and none disturbs the others.
   */
  method Describe(n: string, a: Int32, bytes: seq<bv8>) returns (name: string, alignment: Int32, contents: seq<bv8>)
    requires a >= 0
    ensures name == n && alignment == a && contents == bytes
  {
    var p := StaticDataObject.Create();
    var q := p.SetName(n);
    q := q.SetAlignment(a);
    var i := 0;
    while i < |bytes|
      invariant 0 <= i <= |bytes|
      invariant p.data.elements == bytes[..i]
      invariant p.name == n && p.alignment == a
    {
      p.Data().PushBack(bytes[i]);
      i := i + 1;
    }
    assert bytes[..|bytes|] == bytes;
    name, alignment, contents := p.name, p.alignment, p.data.elements;
  }

  /** Overwriting one byte through data() keeps the others, the name and the alignment. */
  method OverwriteByte(p: StaticDataObject, i: nat, b: bv8)
    requires i < |p.data.elements|
    modifies p.data
    ensures p.data.elements == old(p.data.elements)[i := b]
    ensures p.name == old(p.name) && p.alignment == old(p.alignment)
  {
    p.Data().Set(i, b);
  }
}
