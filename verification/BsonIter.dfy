/** The one-pass decoder: a step at an offset as a function, and the iterator object whose methods follow it. */
module BsonIter {
  import opened BsonDocument
  import opened BsonEncoding

  type uint32 = x: int | 0 <= x < TWO_32

  /** Unsigned addition of 32-bit numbers wraps. */
  function Sum32(a: uint32, b: uint32): uint32 {
    if a + b < TWO_32 then a + b else a + b - TWO_32
  }

  /** Where the parts of an element start, and where the next one does; or where the error is. */
  datatype Layout = Fields(d2: nat, d3: nat, d4: nat, next: nat) | Bad(err: nat, unsupported: bool)

  /** The payload of the element at `at`; o is the first offset after the key's terminator. */
  function LayoutAt(data: seq<Byte>, at: nat, t: Byte, o: nat): Layout
    requires 0 < o <= |data| <= INT_MAX
  {
    if t == 0x01 || t == 0x09 || t == 0x11 || t == 0x12 then Fields(0, 0, 0, o + 8)
    else if t == 0x02 || t == 0x0D || t == 0x0E then StringLayout(data, o)
    else if t == 0x05 then BinaryLayout(data, o)
    else if t == 0x03 || t == 0x04 then DocumentLayout(data, o)
    else if t == 0x07 then Fields(0, 0, 0, o + 12)
    else if t == 0x08 then
      if o >= |data| || data[o] > 1 then Bad(o, false) else Fields(0, 0, 0, o + 1)
    else if t == 0x0B then RegexLayout(data, at, o)
    else if t == 0x0C then PointerLayout(data, o)
    else if t == 0x0F then ScopeLayout(data, o)
    else if t == 0x10 then Fields(0, 0, 0, o + 4)
    else if t == 0x13 then Fields(0, 0, 0, o + 16)
    else if t == 0x7F || t == 0xFF || t == 0x0A || t == 0x06 then Fields(0, 0, 0, o)
    else Bad(o, t != 0)
  }

  function StringLayout(data: seq<Byte>, o: nat): Layout
    requires o <= |data|
  {
    if o + 4 >= |data| then Bad(o, false)
    else
      var l := U32(data, o);
      if l > |data| - (o + 4) || l == 0 || o + 4 + l >= |data| then Bad(o, false)
      else if data[o + 4 + l - 1] != 0 then Bad(o + 4 + l - 1, false)
      else Fields(o + 4, 0, 0, o + 4 + l)
  }

  function BinaryLayout(data: seq<Byte>, o: nat): Layout
    requires o <= |data| <= INT_MAX
  {
    if o + 4 >= |data| then Bad(o, false)
    else
      var l := U32(data, o);
      if l >= |data| - o - 4 then Bad(o, false)
      else if data[o + 4] != 2 then Fields(o + 4, o + 5, 0, o + 5 + l)
      else if l < 4 then Bad(o, false)
      else if Sum32(U32(data, o + 5), 4) != l then Bad(o + 5, false)
      else Fields(o + 4, o + 5, 0, o + 5 + l)
  }

  /** A length below five is let through. */
  function DocumentLayout(data: seq<Byte>, o: nat): Layout
    requires o <= |data|
  {
    if o + 4 >= |data| || U32(data, o) > |data| - o then Bad(o, false)
    else Fields(0, 0, 0, o + U32(data, o))
  }

  function RegexLayout(data: seq<Byte>, at: nat, o: nat): Layout
    requires o <= |data|
  {
    var e := FindNul(data, o);
    if e == |data| || FindNul(data, e + 1) == |data| then Bad(at, false)
    else Fields(e + 1, 0, 0, FindNul(data, e + 1) + 1)
  }

  function PointerLayout(data: seq<Byte>, o: nat): Layout
    requires o <= |data|
  {
    if o + 4 >= |data| then Bad(o, false)
    else
      var l := U32(data, o);
      if l == 0 || l > |data| - o - 4 then Bad(o, false)
      else if data[o + l + 3] != 0 then Bad(o + l + 3, false)
      else Fields(o + 4, o + 4 + l, 0, o + 4 + l + 12)
  }

  function ScopeLayout(data: seq<Byte>, o: nat): Layout
    requires o <= |data| <= INT_MAX
  {
    if |data| < 19 || o + 14 >= |data| then Bad(o, false)
    else
      var total := U32(data, o);
      var l := U32(data, o + 4);
      if total < 14 || total >= |data| - o then Bad(o, false)
      else if l == 0 || l >= |data| - o - 4 - 4 then Bad(o, false)
      else if o + 4 + 4 + l + 4 >= o + total then Bad(o + 4, false)
      else if Sum32(o + 4 + 4 + l, U32(data, o + 8 + l)) != o + total then Bad(o + 4 + 4 + l, false)
      else Fields(o + 4, o + 8, o + 8 + l, o + total)
  }

  /** A decoded element: its offset, the bounds of its key, its payload and the offset after it. */
  datatype Step =
    | Element(off: nat, d1: nat, d2: nat, d3: nat, d4: nat, next: nat)
    | Invalid(err: nat, unsupported: bool)

  /**
   * One step at an offset. A buffer that ends inside the key leaves the error offset at zero; for an element that
   * reaches the end of the buffer, a regular expression reports its own last byte and other types their payload.
   */
  function StepAt(data: seq<Byte>, at: nat): Step
    requires |data| <= INT_MAX
  {
    if at + 1 > |data| || FindNul(data, at + 1) == |data| then Invalid(0, false)
    else
      var o := FindNul(data, at + 1) + 1;
      PayloadAt(data, at, o)
  }

  function PayloadAt(data: seq<Byte>, at: nat, o: nat): Step
    requires at < |data| <= INT_MAX && 0 < o <= |data|
  {
    Checked(data, at, o, LayoutAt(data, at, data[at], o))
  }

  /** The check that the buffer goes on behind the element. */
  function Checked(data: seq<Byte>, at: nat, o: nat, l: Layout): Step
    requires at < |data| && (data[at] == 0x0B && l.Fields? ==> l.next > 0)
  {
    match l
    case Bad(err, unsupported) => Invalid(err, unsupported)
    case Fields(d2, d3, d4, next) =>
      if next < |data| then Element(at, o, d2, d3, d4, next)
      else Invalid(if data[at] == 0x0B then next - 1 else o, false)
  }

  /** The iterator object; `live` stands for a non-null `raw`. */
  class Iter {
    var live: bool
    var raw: seq<Byte>
    var len: uint32
    var off: uint32
    var typeOff: uint32
    var key: uint32
    var d1: uint32
    var d2: uint32
    var d3: uint32
    var d4: uint32
    var nextOff: uint32
    var errOff: uint32

    /** Ready for the next step, or invalidated. */
    predicate Valid()
      reads this
    {
      && len == |raw| <= INT_MAX
      && (live ==> errOff == 0 && 4 <= nextOff && (nextOff < len || nextOff == 4))
      && (!live ==> raw == [])
    }

    /** The fields describe the element at `off`. */
    predicate Stands()
      reads this
    {
      && live && 4 <= off == typeOff && key == off + 1 && |raw| <= INT_MAX
      && StepAt(raw, off) == Here()
    }

    /** The element the fields describe. */
    function Here(): Step
      reads this
    {
      Element(off, d1, d2, d3, d4, nextOff)
    }

    /** memset and the assignments of the initializers. */
    method Reset(data: seq<Byte>)
      requires |data| <= INT_MAX
      modifies this
      ensures Valid() && live && raw == data && off == 0 && nextOff == 4
    {
      live, raw, len, off, typeOff, key := true, data, |data|, 0, 0, 0;
      d1, d2, d3, d4, nextOff, errOff := 0, 0, 0, 0, 4, 0;
    }

    method Clear()
      modifies this
      ensures Valid() && !live && errOff == 0
    {
      live, raw, len, off, typeOff, key := false, [], 0, 0, 0, 0;
      d1, d2, d3, d4, nextOff, errOff := 0, 0, 0, 0, 0, 0;
    }

    constructor ()
      ensures Valid() && !live
    {
      live, raw, len, off, typeOff, key := false, [], 0, 0, 0, 0;
      d1, d2, d3, d4, nextOff, errOff := 0, 0, 0, 0, 0, 0;
    }

    /** Accepts a buffer whose length prefix is its length and whose last byte is zero. */
    method InitFromData(data: seq<Byte>) returns (ok: bool)
      modifies this
      ensures Valid() && ok == live == Accepted(data)
      ensures ok ==> raw == data && off == 0 && nextOff == 4
    {
      if |data| < 5 || |data| > INT_MAX {
        Clear();
        return false;
      }
      if U32(data, 0) != |data| {
        Clear();
        return false;
      }
      if data[|data| - 1] != 0 {
        Clear();
        return false;
      }
      Reset(data);
      return true;
    }

    /** Moves to the embedded document or array; nothing is checked about it here. */
    method Recurse(child: Iter) returns (ok: bool)
      requires Valid() && Stands() && child != this
      modifies child
      ensures ok == (raw[off] == 0x03 || raw[off] == 0x04)
      ensures ok ==> d1 + U32(raw, d1) <= len && child.raw == raw[d1..d1 + U32(raw, d1)]
      ensures ok ==> child.Valid() && child.live && child.off == 0 && child.nextOff == 4
    {
      if raw[typeOff] == 0x03 || raw[typeOff] == 0x04 {
        child.Reset(raw[d1..d1 + U32(raw, d1)]);
        return true;
      }
      return false;
    }

    /** Structure assignment. */
    method CopyFrom(other: Iter)
      requires other.Valid()
      modifies this
      ensures Valid() && live == other.live && raw == other.raw && off == other.off && typeOff == other.typeOff
      ensures key == other.key && d1 == other.d1 && d2 == other.d2 && d3 == other.d3 && d4 == other.d4
      ensures nextOff == other.nextOff && errOff == other.errOff
    {
      live, raw, len, off, typeOff, key := other.live, other.raw, other.len, other.off, other.typeOff, other.key;
      d1, d2, d3, d4, nextOff, errOff := other.d1, other.d2, other.d3, other.d4, other.nextOff, other.errOff;
    }

    /** The state the type switch starts from. */
    predicate Filling(o: nat)
      reads this
    {
      len == |raw| <= INT_MAX && 0 < o <= len && d1 == o
    }

    /** The fields hold a layout, or the error offset does. */
    predicate Holds(l: Layout, ok: bool)
      reads this
    {
      match l
      case Bad(err, _) => !ok && errOff == err
      case Fields(a, b, c, n) => ok && errOff == 0 && nextOff == n && d2 == a && d3 == b && d4 == c
    }

    method FillString(o: uint32) returns (ok: bool)
      requires Filling(o) && errOff == 0 && d3 == 0 && d4 == 0
      modifies this`d2, this`nextOff, this`errOff
      ensures Holds(StringLayout(raw, o), ok)
    {
      ok := false;
      if o + 4 >= len {
        errOff := o;
        return;
      }
      d2 := o + 4;
      var l: uint32 := U32(raw, d1);
      var room: uint32 := len - (o + 4);
      if l > room {
        errOff := o;
        return;
      }
      nextOff := o + 4 + l;
      if l == 0 || nextOff >= len {
        errOff := o;
        return;
      }
      if raw[d2 + (l - 1)] != 0 {
        errOff := o + 4 + l - 1;
        return;
      }
      ok := true;
    }

    method FillBinary(o: uint32) returns (ok: bool)
      requires Filling(o) && len >= 4 && errOff == 0 && d4 == 0
      modifies this`d2, this`d3, this`nextOff, this`errOff
      ensures Holds(BinaryLayout(raw, o), ok)
    {
      ok := false;
      var limit: uint32 := len - 4;
      if o >= limit {
        errOff := o;
        return;
      }
      d2 := o + 4;
      d3 := o + 5;
      var l: uint32 := U32(raw, d1);
      var room: uint32 := len - o - 4;
      if l >= room {
        errOff := o;
        return;
      }
      if raw[d2] == 2 {
        if l < 4 {
          errOff := o;
          return;
        }
        var inner: uint32 := U32(raw, d3);
        if Sum32(inner, 4) != l {
          errOff := d3;
          return;
        }
      }
      nextOff := o + 5 + l;
      ok := true;
    }

    method FillDocument(o: uint32) returns (ok: bool)
      requires Filling(o) && len >= 4 && errOff == 0 && d2 == 0 && d3 == 0 && d4 == 0
      modifies this`nextOff, this`errOff
      ensures Holds(DocumentLayout(raw, o), ok)
    {
      ok := false;
      var limit: uint32 := len - 4;
      if o >= limit {
        errOff := o;
        return;
      }
      var l: uint32 := U32(raw, d1);
      var room: uint32 := len - o;
      if l > len || l > room {
        errOff := o;
        return;
      }
      nextOff := o + l;
      ok := true;
    }

    method FillRegex(from: uint32) returns (ok: bool, o: uint32)
      requires Filling(from) && errOff == 0 && d2 == 0 && d3 == 0 && d4 == 0 && nextOff == off
      modifies this`d2, this`nextOff, this`errOff
      ensures Holds(RegexLayout(raw, off, from), ok)
      ensures ok ==> o + 1 == nextOff
    {
      ok, o := false, from;
      while o < len && raw[o] != 0
        invariant from <= o <= len && FindNul(raw, o) == FindNul(raw, from)
      {
        o := o + 1;
      }
      if o == len {
        errOff := nextOff;
        return;
      }
      o := o + 1;
      d2 := o;
      while o < len && raw[o] != 0
        invariant d2 <= o <= len && FindNul(raw, o) == FindNul(raw, d2)
      {
        o := o + 1;
      }
      if o == len {
        errOff := nextOff;
        return;
      }
      nextOff := o + 1;
      ok := true;
    }

    method FillPointer(o: uint32) returns (ok: bool)
      requires Filling(o) && len >= 4 && errOff == 0 && d4 == 0
      modifies this`d2, this`d3, this`nextOff, this`errOff
      ensures Holds(PointerLayout(raw, o), ok)
    {
      ok := false;
      var limit: uint32 := len - 4;
      if o >= limit {
        errOff := o;
        return;
      }
      d2 := o + 4;
      var l: uint32 := U32(raw, d1);
      var room: uint32 := len - o - 4;
      if l == 0 || l > room {
        errOff := o;
        return;
      }
      if raw[o + l + 3] != 0 {
        errOff := o + l + 3;
        return;
      }
      d3 := o + 4 + l;
      nextOff := o + 4 + l + 12;
      ok := true;
    }

    method FillScope(o: uint32) returns (ok: bool)
      requires Filling(o) && errOff == 0
      modifies this`d2, this`d3, this`d4, this`nextOff, this`errOff
      ensures Holds(ScopeLayout(raw, o), ok)
    {
      ok := false;
      if len < 19 {
        errOff := o;
        return;
      }
      var limit: uint32 := len - 14;
      if o >= limit {
        errOff := o;
        return;
      }
      d2 := o + 4;
      d3 := o + 8;
      var l: uint32 := U32(raw, d1);
      var room: uint32 := len - o;
      if l < 14 || l >= room {
        errOff := o;
        return;
      }
      nextOff := o + l;
      ok := FillCode(o);
    }

    /** The code string and the scope document inside a total already read. */
    method FillCode(o: uint32) returns (ok: bool)
      requires Filling(o) && errOff == 0 && len >= 19 && o + 14 < len && d2 == o + 4 && d3 == o + 8
      requires 14 <= U32(raw, o) < len - o && nextOff == o + U32(raw, o)
      modifies this`d4, this`errOff
      ensures Holds(ScopeLayout(raw, o), ok)
    {
      ok := false;
      var l: uint32 := U32(raw, d2);
      var room: uint32 := len - o - 4 - 4;
      if l == 0 || l >= room {
        errOff := o;
        return;
      }
      if o + 4 + 4 + l + 4 >= nextOff {
        errOff := o + 4;
        return;
      }
      d4 := o + 4 + 4 + l;
      var doclen: uint32 := U32(raw, d4);
      if Sum32(o + 4 + 4 + l, doclen) != nextOff {
        errOff := o + 4 + 4 + l;
        return;
      }
      ok := true;
    }

    /** The switch over the type; o is where the last scan stopped. */
    method FillFields(t: Byte, from: uint32) returns (ok: bool, unsupported: bool, o: uint32)
      requires Filling(from) && len >= 4 && errOff == 0 && d2 == 0 && d3 == 0 && d4 == 0 && nextOff == off
      modifies this`d2, this`d3, this`d4, this`nextOff, this`errOff
      ensures Holds(LayoutAt(raw, off, t, from), ok)
      ensures unsupported == (LayoutAt(raw, off, t, from).Bad? && LayoutAt(raw, off, t, from).unsupported)
      ensures ok ==> o == (if t == 0x0B then nextOff - 1 else from) && nextOff >= from
    {
      ok, unsupported, o := true, false, from;
      if t == 0x09 || t == 0x01 || t == 0x12 || t == 0x11 {
        nextOff := o + 8;
      } else if t == 0x0D || t == 0x0E || t == 0x02 {
        ok := FillString(o);
      } else if t == 0x05 {
        ok := FillBinary(o);
      } else if t == 0x04 || t == 0x03 {
        ok := FillDocument(o);
      } else if t == 0x07 {
        nextOff := o + 12;
      } else if t == 0x08 {
        if d1 >= len || (raw[d1] != 0 && raw[d1] != 1) {
          errOff := o;
          ok := false;
        } else {
          nextOff := o + 1;
        }
      } else if t == 0x0B {
        ok, o := FillRegex(o);
      } else if t == 0x0C {
        ok := FillPointer(o);
      } else if t == 0x0F {
        ok := FillScope(o);
      } else if t == 0x10 {
        nextOff := o + 4;
      } else if t == 0x13 {
        nextOff := o + 16;
      } else if t == 0x7F || t == 0xFF || t == 0x0A || t == 0x06 {
        nextOff := o;
      } else {
        unsupported := t != 0;
        errOff := o;
        ok := false;
      }
    }

    /** mark_invalid. */
    method Invalidate()
      requires len == |raw| <= INT_MAX
      modifies this`live, this`raw, this`len, this`nextOff
      ensures Valid() && !live
    {
      live, raw, len, nextOff := false, [], 0, 0;
    }

    /** Runs to the end of the key. */
    method ScanKey() returns (o: uint32)
      requires len == |raw| <= INT_MAX && key <= INT_MAX + 1
      ensures o == if key <= len then FindNul(raw, key) else key
    {
      o := key;
      while o < len && raw[o] != 0
        invariant key <= o && (o <= len || o == key)
        invariant key <= len ==> FindNul(raw, o) == FindNul(raw, key)
      {
        o := o + 1;
      }
    }

    /** The outcome of a step as the fields show it. */
    predicate Reports(step: Step, ok: bool, unsupported: bool)
      reads this
    {
      match step
      case Element(at, a, b, c, d, next) =>
        ok && live && errOff == 0 && off == at && d1 == a && d2 == b && d3 == c && d4 == d && nextOff == next
      case Invalid(err, u) => !ok && !live && errOff == err && unsupported == u
    }

    /** The check for the end of the buffer, and mark_invalid. */
    method Settle(ghost l: Layout, valid: bool, unsupported: bool, o: uint32) returns (ok: bool)
      requires live && len == |raw| <= INT_MAX && off < len
      requires Holds(l, valid) && (!valid ==> unsupported == l.unsupported) && (valid ==> !unsupported)
      requires raw[off] == 0x0B && l.Fields? ==> l.next > 0
      requires valid ==> o == if raw[off] == 0x0B then nextOff - 1 else d1
      modifies this`live, this`raw, this`len, this`nextOff, this`errOff
      ensures Reports(Checked(old(raw), off, d1, l), ok, unsupported)
      ensures ok ==> raw == old(raw) && len == old(len) && nextOff == old(nextOff) < len
      ensures !ok ==> raw == [] && len == 0
    {
      ok := valid;
      if ok && nextOff >= len {
        errOff := o;
        ok := false;
      }
      if !ok {
        Invalidate();
        return;
      }
      errOff := 0;
    }

    /** Everything after the key. */
    method Fill(ghost step: Step) returns (ok: bool, unsupported: bool)
      requires live && len == |raw| <= INT_MAX && 4 <= off == typeOff == nextOff && off < d1 <= len
      requires errOff == 0 && d2 == 0 && d3 == 0 && d4 == 0
      requires step == PayloadAt(raw, off, d1)
      modifies this`live, this`raw, this`len, this`d2, this`d3, this`d4, this`nextOff, this`errOff
      ensures Reports(step, ok, unsupported)
      ensures ok ==> raw == old(raw) && len == old(len) && d1 <= nextOff < len
      ensures !ok ==> raw == [] && len == 0
    {
      ghost var layout := LayoutAt(raw, off, raw[off], d1);
      var valid, o;
      valid, unsupported, o := FillFields(raw[typeOff], d1);
      ok := Settle(layout, valid, unsupported, o);
    }

    /** Advances to the next element. */
    method Next() returns (ok: bool, unsupported: bool)
      requires Valid()
      modifies this
      ensures Valid()
      ensures !old(live) ==> !ok && !live && errOff == old(errOff)
      ensures old(live) ==> Reports(StepAt(old(raw), old(nextOff)), ok, unsupported)
      ensures ok ==> raw == old(raw) && off == typeOff == old(nextOff) && key == off + 1
    {
      hide LayoutAt;
      unsupported := false;
      if !live {
        return false, false;
      }
      ghost var step := StepAt(raw, nextOff);
      off := nextOff;
      typeOff := off;
      key := off + 1;
      d1, d2, d3, d4 := 0, 0, 0, 0;
      var o := ScanKey();
      if o >= len {
        Invalidate();
        return false, false;
      }
      d1 := o + 1;
      ok, unsupported := Fill(step);
    }
  }

  /** What bson_iter_init_from_data checks. */
  predicate Accepted(data: seq<Byte>) {
    5 <= |data| <= INT_MAX && U32(data, 0) == |data| && data[|data| - 1] == 0
  }
}
