/** upnp/src/genlib/util/membuffer.c: a growable block of octets. */
module MemBuffer {
  import opened Bytes

  const UPNP_E_OUTOF_MEMORY := -104
  const UPNP_E_OUTOF_BOUNDS := -506
  const MEMBUF_DEF_SIZE_INC := 5

  // ----- what the operations mean for the octets

  function Splice(s: seq<Byte>, index: nat, t: seq<Byte>): seq<Byte>
    requires index <= |s|
  {
    s[..index] + t + s[index..]
  }

  /** At most n octets out of the middle. */
  function Cut(s: seq<Byte>, index: nat, n: nat): seq<Byte>
    requires index <= |s|
  {
    if index + n > |s| then s[..index] else s[..index] + s[index + n..]
  }

  lemma MovedDown(was: seq<Byte>, now: seq<Byte>, index: nat, n: nat)
    requires |was| == |now| && index + n <= |was|
    requires forall k :: 0 <= k < index || |was| - n <= k < |was| ==> now[k] == was[k]
    requires forall k :: index <= k < |was| - n ==> now[k] == was[k + n]
    ensures now == was[..index] + was[index + n..] + was[|was| - n..]
  {
    var (a, b, c) := (was[..index], was[index + n..], was[|was| - n..]);
    assert now[..index] == a && now[index..|was| - n] == b && now[|was| - n..] == c;
    assert now == now[..index] + now[index..|was| - n] + now[|was| - n..];
  }

  /** A data argument of the C functions: a block, or NULL. */
  datatype Data = Null | Block(octets: seq<Byte>)

  /** Which of the two reallocs of membuffer_set_size would succeed. */
  datatype Grants = Grants(first: bool, second: bool)

  class Buffer {
    var buf: array?<Byte>
    var length: nat
    var capacity: nat
    var sizeInc: nat

    /** The block, if there is one, is one octet longer than the capacity. */
    ghost predicate Shape()
      reads this
    {
      if buf == null then capacity == 0 else buf.Length == capacity + 1
    }

    ghost predicate Valid()
      reads this, Footprint()
    {
      Shape() && length <= capacity && (length > 0 ==> buf[length] == 0)
    }

    ghost function Footprint(): set<object>
      reads this
    {
      if buf == null then {} else {buf}
    }

    ghost function Contents(): (s: seq<Byte>)
      requires Valid()
      reads this, Footprint()
      ensures |s| == length
    {
      if buf == null then [] else buf[..length]
    }

    /** membuffer_init */
    constructor ()
      ensures Valid() && Contents() == [] && sizeInc == MEMBUF_DEF_SIZE_INC && buf == null
    {
      buf, length, capacity, sizeInc := null, 0, 0, MEMBUF_DEF_SIZE_INC;
    }

    /** Whether membuffer_set_size asks for another block. */
    predicate NeedsRealloc(newLength: nat)
      reads this
    {
      if newLength >= length then newLength > capacity else capacity > newLength + sizeInc
    }

    /** The successful realloc: a block of n + 1 octets with the same start. */
    method Reallocate(n: nat)
      requires Shape()
      modifies `buf, `capacity
      ensures Shape() && capacity == n && buf != null && fresh(buf)
      ensures old(buf) != null ==> forall k :: 0 <= k <= n && k <= old(capacity) ==> buf[k] == old(buf[k])
    {
      var block := new Byte[n + 1];
      if buf != null {
        var kept := if n < capacity then n + 1 else capacity + 1;
        forall k | 0 <= k < kept {
          block[k] := buf[k];
        }
      }
      buf, capacity := block, n;
    }

    /** membuffer_set_size: makes room, and leaves every octet that still has room. */
    method SetSize(newLength: nat, g: Grants) returns (rc: int)
      requires Shape() && length <= capacity
      modifies `buf, `capacity
      ensures rc == (if old(NeedsRealloc(newLength)) && !g.first && !g.second then UPNP_E_OUTOF_MEMORY else 0)
      ensures Shape() && (buf == old(buf) || fresh(buf))
      ensures rc == 0 ==> newLength <= capacity
      ensures rc != 0 || !old(NeedsRealloc(newLength)) ==> buf == old(buf) && capacity == old(capacity)
      ensures old(buf) != null ==>
                buf != null && forall k :: 0 <= k <= capacity && k <= old(capacity) ==> buf[k] == old(buf[k])
    {
      var allocLen;
      if newLength >= length {
        if newLength <= capacity {
          return 0;
        }
        var diff := newLength - length;
        allocLen := (if sizeInc > diff then sizeInc else diff) + capacity;
      } else {
        if capacity - newLength <= sizeInc {
          return 0;
        }
        allocLen := newLength + sizeInc;
      }
      assert allocLen >= newLength;
      if !g.first {
        allocLen := newLength;
        if !g.second {
          return UPNP_E_OUTOF_MEMORY;
        }
      }
      Reallocate(allocLen);
      rc := 0;
    }

    /** membuffer_destroy */
    method Destroy()
      modifies this
      ensures Valid() && Contents() == [] && sizeInc == MEMBUF_DEF_SIZE_INC && buf == null
    {
      buf, length, capacity, sizeInc := null, 0, 0, MEMBUF_DEF_SIZE_INC;
    }

    /** membuffer_assign */
    method Assign(data: Data, g: Grants) returns (rc: int)
      requires Valid()
      modifies this, Footprint()
      ensures Valid() && (buf == old(buf) || buf == null || fresh(buf))
      ensures data.Null? ==> rc == 0 && Contents() == []
      ensures data.Block? ==>
                rc == (if old(NeedsRealloc(|data.octets|)) && !g.first && !g.second then UPNP_E_OUTOF_MEMORY else 0)
      ensures data.Block? ==> Contents() == if rc == 0 then data.octets else old(Contents())
    {
      if data.Null? {
        Destroy();
        return 0;
      }
      var n := |data.octets|;
      rc := SetSize(n, g);
      if rc != 0 {
        return;
      }
      if n > 0 {
        forall k | 0 <= k < n {
          buf[k] := data.octets[k];
        }
        buf[n] := 0;
      }
      length := n;
    }

    /** The memmove of membuffer_insert. */
    method MoveUp(index: nat, n: nat)
      requires buf != null && index <= length && length + n < buf.Length
      modifies buf
      ensures buf[..index] == old(buf[..index]) && buf[index + n..length + n] == old(buf[index..length])
    {
      forall k | index <= k < length {
        buf[k + n] := buf[k];
      }
    }

    /** The memcpy of membuffer_insert. */
    method CopyIn(octets: seq<Byte>, index: nat)
      requires buf != null && index + |octets| <= buf.Length
      modifies buf
      ensures buf[..index] == old(buf[..index]) && buf[index..index + |octets|] == octets
      ensures buf[index + |octets|..] == old(buf[index + |octets|..])
    {
      forall k | 0 <= k < |octets| {
        buf[index + k] := octets[k];
      }
    }

    /** The end of membuffer_insert, once there is room. */
    method PutIn(octets: seq<Byte>, index: nat)
      requires Shape() && buf != null && index <= length && length + |octets| <= capacity
      modifies `length, buf
      ensures buf == old(buf) && capacity == old(capacity) && length == old(length) + |octets|
      ensures buf[..length] == Splice(old(buf[..length]), index, octets) && buf[length] == 0
    {
      var n := |octets|;
      ghost var s := buf[..length];
      MoveUp(index, n);
      ghost var t := buf[index + n..];
      assert t[..length - index] == s[index..];
      CopyIn(octets, index);
      assert buf[index + n..] == t;
      length := length + n;
      assert buf[..length] == buf[..index] + buf[index..index + n] + t[..length - n - index];
      buf[length] := 0;
    }

    /** membuffer_insert; a failed call changes nothing. */
    method Insert(data: Data, index: nat, g: Grants) returns (rc: int)
      requires Valid()
      modifies this, Footprint()
      ensures Valid() && (buf == old(buf) || fresh(buf)) && sizeInc == old(sizeInc)
      ensures rc ==
              if index > old(length) then UPNP_E_OUTOF_BOUNDS
              else if data.Null? || data.octets == [] then 0
              else if old(NeedsRealloc(length + |data.octets|)) && !g.first && !g.second then UPNP_E_OUTOF_MEMORY
              else 0
      ensures rc != 0 || data.Null? ==> Contents() == old(Contents())
      ensures rc != 0 ==> buf == old(buf) && capacity == old(capacity)
      ensures rc == 0 && data.Block? ==> Contents() == Splice(old(Contents()), index, data.octets)
    {
      ghost var s := Contents();
      if index > length {
        return UPNP_E_OUTOF_BOUNDS;
      }
      if data.Null? || |data.octets| == 0 {
        assert data.Block? ==> Splice(s, index, []) == s;
        return 0;
      }
      var n := |data.octets|;
      hide Splice;
      rc := SetSize(length + n, g);
      if rc != 0 {
        return;
      }
      assert old(buf) != null ==> buf[..length] == s;
      PutIn(data.octets, index);
    }

    /** membuffer_append */
    method Append(data: Data, g: Grants) returns (rc: int)
      requires Valid()
      modifies this, Footprint()
      ensures Valid() && (buf == old(buf) || fresh(buf)) && sizeInc == old(sizeInc)
      ensures rc ==
              if data.Null? || data.octets == [] then 0
              else if old(NeedsRealloc(length + |data.octets|)) && !g.first && !g.second then UPNP_E_OUTOF_MEMORY
              else 0
      ensures rc != 0 || data.Null? ==> Contents() == old(Contents())
      ensures rc != 0 ==> buf == old(buf) && capacity == old(capacity)
      ensures rc == 0 && data.Block? ==> Contents() == old(Contents()) + data.octets
    {
      ghost var s := Contents();
      rc := Insert(data, length, g);
      assert s[..|s|] == s && s[|s|..] == [];
    }

    /** The memmove of membuffer_delete. */
    method MoveDown(index: nat, n: nat, copyLen: nat)
      requires Valid() && buf != null && index + n + copyLen == length
      modifies buf
      ensures Valid()
      ensures Contents() == old(Contents()[..index] + Contents()[index + n..] + Contents()[length - n..])
    {
      ghost var was := buf[..length];
      forall k | index <= k < index + copyLen {
        buf[k] := buf[k + n];
      }
      ghost var now := buf[..length];
      assert forall k :: 0 <= k < index || length - n <= k < length ==> now[k] == was[k];
      assert forall k :: index <= k < length - n ==> now[k] == was[k + n];
      MovedDown(was, now, index, n);
    }

    /** The end of membuffer_delete: gives back room, then sets the length. */
    method Trim(newLength: nat, g: Grants)
      requires Valid() && newLength <= length && buf != null
      modifies this, buf
      ensures Valid() && (buf == old(buf) || fresh(buf)) && sizeInc == old(sizeInc)
      ensures Contents() ==
              if newLength < old(length) && old(NeedsRealloc(newLength)) && !g.first && !g.second then old(Contents())
              else old(Contents())[..newLength]
    {
      var rc := SetSize(newLength, g);
      if rc != 0 {
        return;
      }
      assert buf[..newLength] == old(buf[..newLength]);
      length := newLength;
      buf[newLength] := 0;
    }

    /** membuffer_delete. When the block could be given back but neither realloc
        succeeds, the octets have been moved all the same and the length stays. */
    method Delete(index: nat, numBytes: nat, g: Grants)
      requires Valid() && index <= length
      modifies this, Footprint()
      ensures Valid() && (buf == old(buf) || fresh(buf)) && sizeInc == old(sizeInc)
      ensures var left := |Cut(old(Contents()), index, numBytes)|;
              if left < old(length) && old(NeedsRealloc(left)) && !g.first && !g.second then
                Contents() == Cut(old(Contents()), index, numBytes) + old(Contents())[left..]
              else
                Contents() == Cut(old(Contents()), index, numBytes)
    {
      if length == 0 {
        return;
      }
      ghost var s := Contents();
      var n, copyLen := numBytes, 0;
      if index + n > length {
        n := length - index;
      } else {
        copyLen := length - (index + n);
      }
      ghost var cut := s[..index] + s[index + n..];
      assert cut == Cut(s, index, numBytes) && |cut| == length - n;
      hide Cut;
      MoveDown(index, n, copyLen);
      assert (cut + s[length - n..])[..length - n] == cut;
      Trim(length - n, g);
    }
  }
}
