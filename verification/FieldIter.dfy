/**
 pb_common.c: the iterator over a message's field descriptors. It only moves
 forward, wraps at the terminator, and works out each field's address from the
 one before.
 */
module FieldIter {
  import Bytes
  import opened Schema

  const PB_SIZE_MAX := 0xFFFF_FFFF

  datatype Address = Address(data: int, size: int, required: nat)

  /** Address of field i and number of required fields before it, for a struct at `dest` (0 if none). */
  function AddressOf(fs: seq<Field>, dest: nat, i: nat): Address
    requires i < |fs|
  {
    var f := fs[i].layout;
    if i == 0 then
      if dest == 0 then Address(0, 0, 0)
      else Address(dest + f.dataOffset, dest + f.dataOffset + f.sizeOffset, 0)
    else
      var prev, a := fs[i - 1], AddressOf(fs, dest, i - 1);
      if prev.rule.Oneof? && fs[i].rule.Oneof? && f.dataOffset == PB_SIZE_MAX then a
      else
        var size := prev.layout.dataSize * (if prev.rule.Repeated? then prev.layout.arraySize else 1);
        var data := a.data + size + f.dataOffset;
        Address(data, data + f.sizeOffset, a.required + if prev.rule.Required? then 1 else 0)
  }

  /** The count of required fields is the same as counting them directly. */
  lemma {:induction false} RequiredCounted(fs: seq<Field>, dest: nat, i: nat)
    requires i < |fs|
    ensures AddressOf(fs, dest, i).required == RequiredIndex(fs, i)
  {
    if i > 0 { RequiredCounted(fs, dest, i - 1); }
  }

  class Iter {
    const fields: seq<Field>
    const dest: nat
    var pos: nat
    var data: int
    var size: int
    var required: nat

    ghost predicate Valid()
      reads this
    {
      if fields == [] then pos == 0
      else pos < |fields| && Address(data, size, required) == AddressOf(fields, dest, pos)
    }

    /** pb_field_iter_begin. */
    constructor (fs: seq<Field>, dest: nat)
      ensures Valid() && pos == 0 && fields == fs && this.dest == dest
    {
      fields, this.dest, pos, required := fs, dest, 0, 0;
      if dest == 0 || fs == [] {
        data, size := 0, 0;
      } else {
        data := dest + fs[0].layout.dataOffset;
        size := dest + fs[0].layout.dataOffset + fs[0].layout.sizeOffset;
      }
    }

    /** pb_field_iter_next: false at the end, where it starts over. */
    method Next() returns (more: bool)
      requires Valid()
      modifies this
      ensures Valid()
      ensures more == (old(pos) + 1 < |fields|)
      ensures pos == if more then old(pos) + 1 else 0
    {
      if fields == [] { return false; }
      if pos + 1 == |fields| {
        pos, required := 0, 0;
        data := if dest == 0 then 0 else dest + fields[0].layout.dataOffset;
        size := if dest == 0 then 0 else dest + fields[0].layout.dataOffset + fields[0].layout.sizeOffset;
        return false;
      }
      var prev, f := fields[pos], fields[pos + 1];
      pos := pos + 1;
      var prevSize := prev.layout.dataSize;
      if prev.rule.Oneof? && f.rule.Oneof? && f.layout.dataOffset == PB_SIZE_MAX {
        return true;
      } else if prev.rule.Repeated? {
        prevSize := prevSize * prev.layout.arraySize;
      }
      if prev.rule.Required? { required := required + 1; }
      data := data + prevSize + f.layout.dataOffset;
      size := data + f.layout.sizeOffset;
      return true;
    }

    /** pb_field_iter_find: from wherever it stands, once around. */
    method Find(tag: nat) returns (found: bool)
      requires Valid() && WellFormed(fields)
      modifies this
      ensures Valid()
      ensures fields != [] ==> (found <==> Schema.Find(fields, tag).Some?)
      ensures fields != [] && found ==> Schema.Find(fields, tag).value == pos
      ensures fields == [] ==> (found <==> tag == 0)
      ensures !found ==> pos == old(pos)
    {
      hide AddressOf;
      if fields == [] { return tag == 0; }
      var start := pos;
      ghost var wrapped := false;
      while true
        invariant Valid() && (if wrapped then pos < start else start <= pos)
        invariant forall j :: start <= j < (if wrapped then |fields| else pos) ==> fields[j].tag != tag
        invariant wrapped ==> forall j :: 0 <= j < pos ==> fields[j].tag != tag
        decreases if wrapped then start - pos else |fields| + start - pos
      {
        if fields[pos].tag == tag {
          Unique(fields, pos);
          return true;
        }
        var more := Next();
        if !more { wrapped := true; }
        if pos == start { break; }
      }
      return false;
    }
  }

  /** Tags are distinct, so the search finds the field wherever it starts. */
  lemma Unique(fs: seq<Field>, i: nat)
    requires WellFormed(fs) && i < |fs|
    ensures Schema.Find(fs, fs[i].tag) == Bytes.Some(i)
  {
    hide Schema.Find;
  }
}
