/** Fixed storage for secret bytes. The memory locking around it is outside this model. */
module LockedBytes {
  import opened Prelude

  class LockedBytes {
    const region: array<byte>
    var len: nat

    /** No secret byte is left behind past the length. */
    ghost predicate Valid()
      reads this, region
    {
      && len <= region.Length
      && forall i :: len <= i < region.Length ==> region[i] == 0
    }

    ghost function Text(): (s: Bytes)
      requires len <= region.Length
      reads this, region
      ensures |s| == len
    {
      region[..len]
    }

    constructor (capacity: nat)
      ensures Valid() && fresh(region) && region.Length == capacity && Text() == []
    {
      region := new byte[capacity](_ => 0);
      len := 0;
    }

    method ExtendFromSlice(bytes: Bytes) returns (ok: bool)
      requires Valid()
      modifies this`len, region
      ensures Valid()
      ensures ok <==> |old(Text())| + |bytes| <= region.Length
      ensures Text() == if ok then old(Text()) + bytes else old(Text())
    {
      if |bytes| > region.Length - len { return false; }
      forall i | 0 <= i < |bytes| {
        region[len + i] := bytes[i];
      }
      len := len + |bytes|;
      return true;
    }

    method Truncate(newLen: nat)
      requires Valid()
      modifies this`len, region
      ensures Valid()
      ensures Text() == if newLen < |old(Text())| then old(Text())[..newLen] else old(Text())
    {
      if newLen < len {
        forall i | newLen <= i < len {
          region[i] := 0;
        }
        len := newLen;
      }
    }
  }
}
