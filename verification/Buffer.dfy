/** The growable byte buffer of the external crate `algorithm`, as this repository uses
    it: a store, a read cursor and a mark. */
module Buffer {
  import opened Bytes

  class BinaryMut {
    var store: seq<byte>
    var cursor: nat
    var marked: nat

    ghost predicate Valid()
      reads this
    {
      cursor <= |store| && marked <= |store|
    }

    /** Bytes put and not yet consumed: what `chunk()` shows and `len()` counts. */
    function Unread(): (s: seq<byte>)
      requires Valid()
      reads this
    {
      store[cursor..]
    }

    constructor ()
      ensures Valid() && Unread() == []
    {
      store, cursor, marked := [], 0, 0;
    }

    method Len() returns (n: nat)
      requires Valid()
      ensures n == |Unread()|
    {
      n := |store| - cursor;
    }

    method PutU8(b: byte)
      requires Valid()
      modifies this
      ensures Valid() && Unread() == old(Unread()) + [b]
    {
      store := store + [b];
    }

    method PutU16(n: u16)
      requires Valid()
      modifies this
      ensures Valid() && Unread() == old(Unread()) + [n / 0x100, n % 0x100]
    {
      store := store + [n / 0x100, n % 0x100];
    }

    method PutSlice(s: seq<byte>)
      requires Valid()
      modifies this
      ensures Valid() && Unread() == old(Unread()) + s
    {
      store := store + s;
    }

    method GetU8() returns (b: byte)
      requires Valid() && |Unread()| > 0
      modifies this`cursor
      ensures Valid() && b == old(Unread()[0])
      ensures cursor == old(cursor) + 1 && Unread() == old(Unread())[1..]
    {
      b := store[cursor];
      cursor := cursor + 1;
    }

    method CopyToSlice(n: nat) returns (s: seq<byte>)
      requires Valid() && n <= |Unread()|
      modifies this`cursor
      ensures Valid() && s == old(Unread())[..n] && Unread() == old(Unread())[n..]
    {
      s := store[cursor..cursor + n];
      cursor := cursor + n;
    }

    method Advance(n: nat)
      requires Valid() && n <= |Unread()|
      modifies this`cursor
      ensures Valid() && Unread() == old(Unread())[n..]
    {
      cursor := cursor + n;
    }

    method Mark()
      requires Valid()
      modifies this`marked
      ensures Valid() && marked == cursor
    {
      marked := cursor;
    }

    method RewindMark()
      requires Valid()
      modifies this`cursor
      ensures Valid() && cursor == marked
    {
      cursor := marked;
    }

    method Clear()
      requires Valid()
      modifies this
      ensures Valid() && Unread() == []
    {
      store, cursor, marked := [], 0, 0;
    }
  }
}
