// pb_field_iter_t: the wrap-around walk over a descriptor list that keeps the
// address of the current field and the number of required fields passed.
module FieldIterator {
  import opened Wire
  import opened Descriptors

  /** What pSize points to: a member of the struct, or the decoder's counter for a fixed-count array. */
  datatype SizePtr = Member(address: int) | CountVariable

  /** The bytes that a field occupies in the struct. */
  function Span(f: Field): (n: nat)
  {
    if f.htype == REPEATED then f.dataSize * f.arraySize else f.dataSize
  }

  /** The offset of field i in the struct, from the descriptors up to i. */
  function DataAt(fields: seq<Field>, i: nat): int
    requires i < |fields|
  {
    if i == 0 then fields[0].dataOffset
    else if IsContinuation(fields, i) then DataAt(fields, i - 1)
    else DataAt(fields, i - 1) + Span(fields[i - 1]) + fields[i].dataOffset
  }

  // ---- the layout that the descriptor macros encode ----

  /**
   * The descriptors were generated for a struct whose members are at these
   * offsets: the first as is, a later one as the gap to the end of its predecessor,
   * a further oneof member by the marker, the has-flag, count or which-member
   * relative to the data.
   */
  predicate Describes(fields: seq<Field>, offsets: seq<int>, sizeMembers: seq<int>)
  {
    && |offsets| == |sizeMembers| == |fields|
    && (forall i :: 0 <= i < |fields| && fields[i].sizeOffset != 0 ==>
          fields[i].sizeOffset == sizeMembers[i] - offsets[i])
    && (|fields| > 0 ==> fields[0].dataOffset == offsets[0])
    && (forall i :: 0 < i < |fields| ==>
          var f, prev := fields[i], fields[i - 1];
          if prev.htype == ONEOF && f.htype == ONEOF && f.dataOffset == 0xFFFF_FFFF
          then offsets[i] == offsets[i - 1] && sizeMembers[i] == sizeMembers[i - 1]
          else f.dataOffset == offsets[i] - offsets[i - 1]
                              - prev.dataSize * (if prev.htype == REPEATED then prev.arraySize else 1))
  }

  // The accumulated offset is where the member really is.
  lemma {:induction false} DataAtMember(fields: seq<Field>, offsets: seq<int>, sizeMembers: seq<int>, i: nat)
    requires Describes(fields, offsets, sizeMembers) && i < |fields|
    ensures DataAt(fields, i) == offsets[i]
    ensures var h := Home(fields, i);
      fields[h].sizeOffset != 0 ==> DataAt(fields, i) + fields[h].sizeOffset == sizeMembers[i]
  {
    if i == 0 {
    } else {
      DataAtMember(fields, offsets, sizeMembers, i - 1);
      hide Span;
    }
  }

  // The members of a oneof share one address, that of their home field.
  lemma {:induction false} DataAtHome(fields: seq<Field>, i: nat)
    requires i < |fields|
    ensures DataAt(fields, i) == DataAt(fields, Home(fields, i))
  {
    if IsContinuation(fields, i) {
      DataAtHome(fields, i - 1);
    }
  }

  class FieldIter {
    const start: seq<Field>      // the list up to its terminator
    const destStruct: int
    var pos: nat
    var requiredFieldIndex: nat
    var pData: int
    var pSize: SizePtr

    /** Everything but pSize is a function of the position. */
    predicate Valid()
      reads this
    {
      && (if start == [] then pos == 0 else pos < |start|)
      && requiredFieldIndex == RequiredBefore(start, pos)
      && pData == destStruct + (if start == [] then 0 else DataAt(start, pos))
      && (pSize.CountVariable? ==> pos < |start| && IsFixedCount(start[pos]))
      && (pSize.Member? ==> pSize.address == pData + SizeOffsetAt(pos))
    }

    /** The size_offset that applies at position p: the members of a oneof keep that of the first. */
    function SizeOffsetAt(p: nat): int
    {
      if p < |start| then start[Home(start, p)].sizeOffset else 0
    }

    function TagAt(p: nat): nat
    {
      if p < |start| then start[p].tag else 0
    }

    predicate NonzeroTags()
    {
      forall i :: 0 <= i < |start| ==> start[i].tag != 0
    }

    /** pb_field_iter_begin on a new iterator */
    constructor (fields: seq<Field>, dest: int)
      ensures Valid() && start == fields && destStruct == dest
      ensures pos == 0 && pSize.Member?
    {
      start, destStruct := fields, dest;
      pos, requiredFieldIndex := 0, 0;
      var offset := if fields == [] then 0 else fields[0].dataOffset;
      pData := dest + offset;
      pSize := Member(dest + offset + (if fields == [] then 0 else fields[0].sizeOffset));
    }

    /** pb_field_iter_begin on an iterator in use */
    method Begin() returns (nonempty: bool)
      modifies this
      ensures Valid() && pos == 0 && pSize.Member?
      ensures nonempty <==> TagAt(0) != 0
    {
      pos, requiredFieldIndex := 0, 0;
      pData := destStruct + (if start == [] then 0 else start[0].dataOffset);
      pSize := Member(pData + SizeOffsetAt(0));
      nonempty := TagAt(0) != 0;
    }

    /** pb_field_iter_next */
    method Next() returns (more: bool)
      requires Valid() && NonzeroTags()
      modifies this
      ensures Valid()
      ensures more <==> old(pos) + 1 < |start|
      ensures pos == if more then old(pos) + 1 else 0
      ensures pSize.CountVariable? ==> start == []
    {
      var prev := pos;
      if TagAt(prev) == 0 {
        return false;
      }
      pos := pos + 1;
      if TagAt(pos) == 0 {
        var nonempty := Begin();
        return false;
      }
      var previous, field := start[prev], start[pos];
      if previous.htype == ONEOF && field.htype == ONEOF && field.dataOffset == SIZE_MAX {
        // All members of a oneof are at one address.
        return true;
      }
      var size := previous.dataSize;
      if previous.htype == REPEATED {
        size := size * previous.arraySize;
      }
      if previous.htype == REQUIRED {
        requiredFieldIndex := requiredFieldIndex + 1;
      }
      pData := pData + size + field.dataOffset;
      pSize := Member(pData + field.sizeOffset);
      return true;
    }

    /**
     * pb_field_iter_find: the field with the tag, or the starting position if there is none.
     * In an empty message the terminator matches tag 0.
     */
    method Find(tag: nat) returns (found: bool)
      requires Valid() && NonzeroTags() && DistinctTags(start)
      modifies this
      ensures Valid()
      ensures start != [] ==> (found <==> FindTag(start, tag).Some?)
      ensures start == [] ==> (found <==> tag == 0)
      ensures start != [] && found ==> pos == FindTag(start, tag).value
      ensures !found ==> pos == old(pos)
      ensures pSize.CountVariable? ==> old(pSize).CountVariable? && pos == old(pos)
    {
      var first := pos;
      ghost var wrapped := false;
      while true
        invariant Valid() && (start == [] ==> pos == first)
        invariant if wrapped then pos < first && NoTag(tag, first, |start|) && NoTag(tag, 0, pos)
                  else first <= pos && NoTag(tag, first, pos)
        invariant pSize.CountVariable? ==> old(pSize).CountVariable? && pos == first && !wrapped
        decreases if wrapped then first - pos else first + |start| - pos
      {
        if TagAt(pos) == tag {
          if start != [] {
            FindTagUnique(start, pos);
          }
          return true;
        }
        var more := Next();
        if !more {
          wrapped := true;
        }
        if pos == first {
          break;
        }
      }
      return false;
    }

    /** No field at positions lo <= i < hi has the tag. */
    predicate NoTag(tag: nat, lo: nat, hi: nat)
    {
      forall i :: lo <= i < hi && i < |start| ==> start[i].tag != tag
    }
  }
}
