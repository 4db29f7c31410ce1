/** skipServer of core/server.pb.go: one unknown field, nested groups included. */
module Skip {
  import opened Bits
  import opened Varint

  /** One round of the loop moves to index j (64-bit, so it may have wrapped) at some depth. */
  datatype Advance = To(j: int, depth: nat) | Stuck(e: Error)

  datatype Skipped = Skipped(n: nat) | Fails(e: Error)

  // ------------------------------------------------------------------ specification

  function Item(d: bytes, i: nat, depth: nat): (r: Advance)
    requires i < |d| < TWO_63
    ensures r.To? ==> r.j < 0 || i < r.j
  {
    match Decode(d, i)
    case Bad(e) => Stuck(e)
    case Value(wire, i1) =>
      var wireType := wire % 8;
      if wireType == 0 then
        match Decode(d, i1)
        case Bad(e) => Stuck(e)
        case Value(_, i2) => To(i2, depth)
      else if wireType == 1 then To(ToInt64(i1 + 8), depth)
      else if wireType == 2 then
        match Decode(d, i1)
        case Bad(e) => Stuck(e)
        case Value(len, i2) =>
          var length := ToInt64(len);
          if length < 0 then Stuck(InvalidLength) else To(ToInt64(i2 + length), depth)
      else if wireType == 3 then To(i1, depth + 1)
      else if wireType == 4 then
        if depth == 0 then Stuck(UnexpectedEndOfGroup) else To(i1, depth - 1)
      else if wireType == 5 then To(ToInt64(i1 + 4), depth)
      else Stuck(IllegalWireType)
  }

  function SkipFrom(d: bytes, i: nat, depth: nat): (r: Skipped)
    requires |d| < TWO_63
    ensures r.Skipped? ==> i < r.n && i < |d|
    decreases |d| - i
  {
    if i >= |d| then Fails(UnexpectedEOF)
    else
      match Item(d, i, depth)
      case Stuck(e) => Fails(e)
      case To(j, depth') =>
        if j < 0 then Fails(InvalidLength)
        else if depth' == 0 then Skipped(j)
        else SkipFrom(d, j, depth')
  }

  function Skip(d: bytes): Skipped
    requires |d| < TWO_63
  {
    SkipFrom(d, 0, 0)
  }

  // ------------------------------------------------------------------ the loop

  method SkipServer(dAtA: bytes) returns (r: Skipped)
    requires |dAtA| < TWO_63
    ensures r == Skip(dAtA)
  {
    var l := |dAtA|;
    var iNdEx: int := 0;
    var depth: nat := 0;
    while iNdEx < l
      invariant 0 <= iNdEx
      invariant Skip(dAtA) == SkipFrom(dAtA, iNdEx, depth)
      decreases l - iNdEx
    {
      var tag := DecodeVarint(dAtA, iNdEx);
      if tag.Bad? {
        return Fails(tag.e);
      }
      var wireType := tag.v % 8;
      iNdEx := tag.next;
      match wireType {
        case 0 =>
          var skipped := DecodeVarint(dAtA, iNdEx);
          if skipped.Bad? {
            return Fails(skipped.e);
          }
          iNdEx := skipped.next;
        case 1 =>
          iNdEx := ToInt64(iNdEx + 8);
        case 2 =>
          var len := DecodeVarint(dAtA, iNdEx);
          if len.Bad? {
            return Fails(len.e);
          }
          iNdEx := len.next;
          var length := ToInt64(len.v);
          if length < 0 {
            return Fails(InvalidLength);
          }
          iNdEx := ToInt64(iNdEx + length);
        case 3 =>
          depth := depth + 1;
        case 4 =>
          if depth == 0 {
            return Fails(UnexpectedEndOfGroup);
          }
          depth := depth - 1;
        case 5 =>
          iNdEx := ToInt64(iNdEx + 4);
        case _ =>
          return Fails(IllegalWireType);
      }
      if iNdEx < 0 {
        return Fails(InvalidLength);
      }
      if depth == 0 {
        return Skipped(iNdEx);
      }
    }
    return Fails(UnexpectedEOF);
  }

  // ------------------------------------------------------------------ the grammar of one field

  /** Parse trees of the encoding; a group holds fields and is closed by its own end tag. */
  datatype Field =
    | VarintField(tag: bytes, body: bytes)
    | Fixed64(tag: bytes, body: bytes)
    | LenField(tag: bytes, len: bytes, body: bytes)
    | Group(tag: bytes, items: Fields, end: bytes)
    | Fixed32(tag: bytes, body: bytes)

  datatype Fields = Nil | Cons(head: Field, tail: Fields)

  predicate IsVarint(b: bytes) {
    Decode(b, 0).Value? && Decode(b, 0).next == |b|
  }

  predicate IsTag(b: bytes, wireType: nat) {
    IsVarint(b) && Decode(b, 0).v % 8 == wireType
  }

  predicate WellFormed(f: Field) {
    match f
    case VarintField(tag, body) => IsTag(tag, 0) && IsVarint(body)
    case Fixed64(tag, body) => IsTag(tag, 1) && |body| == 8
    case LenField(tag, len, body) => IsTag(tag, 2) && IsVarint(len) && |body| == Decode(len, 0).v
    case Group(tag, items, end) => IsTag(tag, 3) && AllWellFormed(items) && IsTag(end, 4)
    case Fixed32(tag, body) => IsTag(tag, 5) && |body| == 4
  }

  predicate AllWellFormed(fs: Fields) {
    match fs
    case Nil => true
    case Cons(f, rest) => WellFormed(f) && AllWellFormed(rest)
  }

  function FieldText(f: Field): bytes {
    match f
    case VarintField(tag, body) => tag + body
    case Fixed64(tag, body) => tag + body
    case LenField(tag, len, body) => tag + len + body
    case Group(tag, items, end) => tag + AllText(items) + end
    case Fixed32(tag, body) => tag + body
  }

  function AllText(fs: Fields): bytes {
    match fs
    case Nil => []
    case Cons(f, rest) => FieldText(f) + AllText(rest)
  }

  // ------------------------------------------------------------------ skipping is parsing

  /** The text t stands at index i of d. */
  predicate At(d: bytes, i: nat, t: bytes) {
    i + |t| <= |d| && d[i..i + |t|] == t
  }

  lemma AtSplit(d: bytes, i: nat, s: bytes, t: bytes)
    ensures At(d, i, s + t) <==> At(d, i, s) && At(d, i + |s|, t)
  {
    if At(d, i, s + t) {
      assert d[i..i + |s|] == d[i..i + |s + t|][..|s|];
      assert d[i + |s|..i + |s| + |t|] == d[i..i + |s + t|][|s|..];
    }
    if At(d, i, s) && At(d, i + |s|, t) {
      assert d[i..i + |s + t|] == d[i..i + |s|] + d[i + |s|..i + |s| + |t|];
    }
  }

  lemma VarintAt(d: bytes, i: nat, b: bytes)
    requires IsVarint(b) && At(d, i, b)
    ensures Decode(d, i) == Value(Decode(b, 0).v, i + |b|)
  {
    assert b[0..|b|] == b;
    DecodeRelocate(b, 0, d, i);
  }

  lemma VarintHere(d: bytes, i: nat) returns (b: bytes)
    requires Decode(d, i).Value?
    ensures IsVarint(b) && At(d, i, b)
    ensures Decode(d, i) == Value(Decode(b, 0).v, i + |b|)
  {
    b := d[i..Decode(d, i).next];
    assert b[0..|b|] == b;
    DecodeRelocate(d, i, b, 0);
  }

  function Continue(d: bytes, j: nat, depth: nat): Skipped
    requires |d| < TWO_63
  {
    if depth == 0 then Skipped(j) else SkipFrom(d, j, depth)
  }

  /** One round of the loop that did not fail. */
  lemma Round(d: bytes, i: nat, depth: nat, j: nat, depth': nat)
    requires i < |d| < TWO_63 && Item(d, i, depth) == To(j, depth')
    ensures SkipFrom(d, i, depth) == Continue(d, j, depth')
  {
  }

  lemma StartGroup(d: bytes, i: nat, tag: bytes, depth: nat)
    requires |d| < TWO_63 && IsTag(tag, 3) && At(d, i, tag)
    ensures SkipFrom(d, i, depth) == SkipFrom(d, i + |tag|, depth + 1)
  {
    VarintAt(d, i, tag);
    Round(d, i, depth, i + |tag|, depth + 1);
  }

  lemma EndGroup(d: bytes, i: nat, tag: bytes, depth: nat)
    requires |d| < TWO_63 && IsTag(tag, 4) && At(d, i, tag)
    ensures SkipFrom(d, i, depth + 1) == Continue(d, i + |tag|, depth)
  {
    VarintAt(d, i, tag);
    Round(d, i, depth + 1, i + |tag|, depth);
  }

  lemma SimpleSkips(f: Field, d: bytes, i: nat, depth: nat)
    requires |d| < TWO_63 && WellFormed(f) && !f.Group? && At(d, i, FieldText(f))
    ensures i < |d| && Item(d, i, depth) == To(i + |FieldText(f)|, depth)
  {
    var tag := f.tag;
    match f {
      case VarintField(_, body) =>
        AtSplit(d, i, tag, body);
        VarintAt(d, i + |tag|, body);
      case Fixed64(_, body) =>
        AtSplit(d, i, tag, body);
      case LenField(_, len, body) =>
        LenFieldSkips(tag, len, body, d, i, depth);
      case Fixed32(_, body) =>
        AtSplit(d, i, tag, body);
    }
    if !f.LenField? {
      VarintAt(d, i, tag);
    }
  }

  lemma LenFieldSkips(tag: bytes, len: bytes, body: bytes, d: bytes, i: nat, depth: nat)
    requires |d| < TWO_63 && IsTag(tag, 2) && IsVarint(len) && |body| == Decode(len, 0).v
    requires At(d, i, tag + len + body)
    ensures i < |d| && Item(d, i, depth) == To(i + |tag + len + body|, depth)
  {
    AtSplit(d, i, tag + len, body);
    AtSplit(d, i, tag, len);
    VarintAt(d, i, tag);
    VarintAt(d, i + |tag|, len);
    hide Decode;
  }

  lemma {:induction false} FieldSkips(f: Field, d: bytes, i: nat, depth: nat)
    requires |d| < TWO_63 && WellFormed(f) && At(d, i, FieldText(f))
    ensures SkipFrom(d, i, depth) == Continue(d, i + |FieldText(f)|, depth)
    decreases f
  {
    if f.Group? {
      GroupSkips(f.tag, f.items, f.end, d, i, depth);
    } else {
      SimpleSkips(f, d, i, depth);
      Round(d, i, depth, i + |FieldText(f)|, depth);
    }
  }

  lemma {:induction false} GroupSkips(tag: bytes, items: Fields, end: bytes, d: bytes, i: nat, depth: nat)
    requires |d| < TWO_63 && IsTag(tag, 3) && AllWellFormed(items) && IsTag(end, 4)
    requires At(d, i, tag + AllText(items) + end)
    ensures SkipFrom(d, i, depth) == Continue(d, i + |tag + AllText(items) + end|, depth)
    decreases items, 1
  {
    hide Item, SkipFrom, Decode;
    var inside := AllText(items);
    var i1, i2 := i + |tag|, i + |tag| + |inside|;
    AtSplit(d, i, tag + inside, end);
    AtSplit(d, i, tag, inside);
    StartGroup(d, i, tag, depth);
    FieldsSkip(items, d, i1, depth + 1);
    EndGroup(d, i2, end, depth);
  }

  lemma {:induction false} FieldsSkip(fs: Fields, d: bytes, i: nat, depth: nat)
    requires |d| < TWO_63 && AllWellFormed(fs) && At(d, i, AllText(fs)) && depth > 0
    ensures SkipFrom(d, i, depth) == SkipFrom(d, i + |AllText(fs)|, depth)
    decreases fs, 0
  {
    hide Item, SkipFrom, WellFormed;
    match fs {
      case Nil =>
      case Cons(f, rest) =>
        var j := i + |FieldText(f)|;
        assert AllText(fs) == FieldText(f) + AllText(rest);
        AtSplit(d, i, FieldText(f), AllText(rest));
        FieldSkips(f, d, i, depth);
        FieldsSkip(rest, d, j, depth);
        assert j + |AllText(rest)| == i + |AllText(fs)|;
    }
  }

  /** The field other than a group or an end tag that stands at i. */
  lemma SimpleField(d: bytes, i: nat, depth: nat) returns (f: Field)
    requires i < |d| < TWO_63
    requires Item(d, i, depth).To? && 0 <= Item(d, i, depth).j <= |d|
    requires Decode(d, i).v % 8 != 3 && Decode(d, i).v % 8 != 4
    ensures WellFormed(f) && At(d, i, FieldText(f)) && i + |FieldText(f)| == Item(d, i, depth).j
    ensures Item(d, i, depth).depth == depth
  {
    var tag := VarintHere(d, i);
    var i1 := i + |tag|;
    var j := Item(d, i, depth).j;
    var wireType := Decode(d, i).v % 8;
    if wireType == 0 {
      var body := VarintHere(d, i1);
      f := VarintField(tag, body);
      AtSplit(d, i, tag, body);
    } else if wireType == 2 {
      f := LenFieldHere(d, i, tag, j);
    } else {
      f := FixedHere(d, i, tag, j);
    }
  }

  lemma FixedHere(d: bytes, i: nat, tag: bytes, j: nat) returns (f: Field)
    requires |d| < TWO_63 && At(d, i, tag) && i + |tag| <= j <= |d|
    requires (IsTag(tag, 1) && j == i + |tag| + 8) || (IsTag(tag, 5) && j == i + |tag| + 4)
    ensures WellFormed(f) && At(d, i, FieldText(f)) && i + |FieldText(f)| == j
  {
    var body := d[i + |tag|..j];
    AtSplit(d, i, tag, body);
    f := if |body| == 8 then Fixed64(tag, body) else Fixed32(tag, body);
  }

  lemma LenFieldHere(d: bytes, i: nat, tag: bytes, j: nat) returns (f: Field)
    requires |d| < TWO_63 && IsTag(tag, 2) && At(d, i, tag) && j <= |d|
    requires Decode(d, i + |tag|).Value? && ToInt64(Decode(d, i + |tag|).v) >= 0
    requires j == ToInt64(Decode(d, i + |tag|).next + ToInt64(Decode(d, i + |tag|).v))
    ensures WellFormed(f) && At(d, i, FieldText(f)) && i + |FieldText(f)| == j
  {
    var i1 := i + |tag|;
    var len := VarintHere(d, i1);
    DecodeBound(d, i1);
    var n := Decode(len, 0).v;
    hide Decode;
    var body := d[i1 + |len|..i1 + |len| + n];
    f := LenField(tag, len, body);
    AtSplit(d, i, tag, len);
    AtSplit(d, i, tag + len, body);
  }

  /** The first field of an open group, given what a skip inside the group would close. */
  lemma ConsText(f: Field, rest: Fields, end: bytes, d: bytes, i: nat)
    requires At(d, i, FieldText(f)) && At(d, i + |FieldText(f)|, AllText(rest) + end)
    ensures At(d, i, AllText(Cons(f, rest)) + end)
    ensures |AllText(Cons(f, rest)) + end| == |FieldText(f)| + |AllText(rest) + end|
  {
    AtSplit(d, i, FieldText(f), AllText(rest) + end);
    assert FieldText(f) + (AllText(rest) + end) == AllText(Cons(f, rest)) + end;
  }

  lemma GroupText(tag: bytes, items: Fields, end: bytes, d: bytes, i: nat) returns (f: Field)
    requires IsTag(tag, 3) && AllWellFormed(items) && IsTag(end, 4)
    requires At(d, i, tag) && At(d, i + |tag|, AllText(items) + end)
    ensures f == Group(tag, items, end) && WellFormed(f)
    ensures At(d, i, FieldText(f)) && |FieldText(f)| == |tag| + |AllText(items) + end|
  {
    f := Group(tag, items, end);
    AtSplit(d, i, tag, AllText(items) + end);
    assert tag + (AllText(items) + end) == FieldText(f);
  }

  /** A skip that ends inside d at depth > 0 first closes the innermost open group. */
  lemma {:induction false} CloseGroup(d: bytes, i: nat, depth: nat) returns (fs: Fields, end: bytes, j: nat)
    requires |d| < TWO_63 && depth > 0
    requires SkipFrom(d, i, depth).Skipped? && SkipFrom(d, i, depth).n <= |d|
    ensures AllWellFormed(fs) && IsTag(end, 4)
    ensures At(d, i, AllText(fs) + end) && j == i + |AllText(fs) + end|
    ensures i < j && Continue(d, j, depth - 1) == SkipFrom(d, i, depth)
    decreases |d| - i
  {
    var tag := VarintHere(d, i);
    var wireType := Decode(d, i).v % 8;
    if wireType == 4 {
      fs, end, j := Nil, tag, i + |tag|;
      assert AllText(fs) + end == tag;
      Round(d, i, depth, j, depth - 1);
    } else {
      hide SkipFrom, FieldText, WellFormed, Decode;
      var f, k := OpenField(d, i, depth, tag);
      var rest;
      rest, end, j := CloseGroup(d, k, depth);
      fs := Cons(f, rest);
      ConsText(f, rest, end, d, i);
    }
  }

  /** The field that starts at i, when the skip goes on after it at the same depth. */
  lemma {:induction false} OpenField(d: bytes, i: nat, depth: nat, tag: bytes) returns (f: Field, k: nat)
    requires |d| < TWO_63
    requires SkipFrom(d, i, depth).Skipped? && SkipFrom(d, i, depth).n <= |d|
    requires IsVarint(tag) && At(d, i, tag) && Decode(d, i) == Value(Decode(tag, 0).v, i + |tag|)
    requires Decode(d, i).v % 8 != 4
    ensures WellFormed(f) && At(d, i, FieldText(f)) && k == i + |FieldText(f)|
    ensures i < k && SkipFrom(d, i, depth) == Continue(d, k, depth)
    decreases |d| - i, 0
  {
    hide Decode;
    if Decode(d, i).v % 8 == 3 {
      Round(d, i, depth, i + |tag|, depth + 1);
      hide SkipFrom, Item;
      var items, e;
      items, e, k := CloseGroup(d, i + |tag|, depth + 1);
      f := GroupText(tag, items, e, d, i);
    } else {
      k := Item(d, i, depth).j;
      Round(d, i, depth, k, depth);
      f := SimpleField(d, i, depth);
    }
  }

  lemma SkippedField(d: bytes) returns (f: Field)
    requires |d| < TWO_63 && Skip(d).Skipped? && Skip(d).n <= |d|
    ensures WellFormed(f) && At(d, 0, FieldText(f)) && |FieldText(f)| == Skip(d).n
  {
    var tag := VarintHere(d, 0);
    var k;
    f, k := OpenField(d, 0, 0, tag);
  }

  /**
   * skipServer, which only counts depth, accepts n bytes of d exactly when they are one field of
   * the grammar: groups nest, every group is closed, nothing is left over.
   */
  lemma SkipIsGrammar(d: bytes, n: nat)
    requires |d| < TWO_63 && n <= |d|
    ensures Skip(d) == Skipped(n) <==> exists f :: WellFormed(f) && FieldText(f) == d[..n]
  {
    if Skip(d) == Skipped(n) {
      var f := SkippedField(d);
      assert FieldText(f) == d[..n];
    }
    forall f | WellFormed(f) && FieldText(f) == d[..n]
      ensures Skip(d) == Skipped(n)
    {
      FieldSkips(f, d, 0, 0);
    }
  }

  /** A successful skip reads only the bytes it returns. */
  lemma SkipRelocate(d: bytes, d': bytes)
    requires |d| < TWO_63 && |d'| < TWO_63
    requires Skip(d).Skipped? && Skip(d).n <= |d| && Skip(d).n <= |d'|
    requires d[..Skip(d).n] == d'[..Skip(d).n]
    ensures Skip(d') == Skip(d)
  {
    var n := Skip(d).n;
    SkipIsGrammar(d, n);
    SkipIsGrammar(d', n);
  }

  // ------------------------------------------------------------------ errors

  /** What a field that cannot be skipped reports. */
  lemma SkipFailures(d: bytes, i: nat, depth: nat)
    requires |d| < TWO_63
    ensures i >= |d| ==> SkipFrom(d, i, depth) == Fails(UnexpectedEOF)
    ensures i < |d| && Decode(d, i).Bad? ==> SkipFrom(d, i, depth) == Fails(Decode(d, i).e)
    ensures i < |d| && Decode(d, i).Value? ==>
              var wireType, j := Decode(d, i).v % 8, Decode(d, i).next;
              && (wireType >= 6 ==> SkipFrom(d, i, depth) == Fails(IllegalWireType))
              && (wireType == 4 && depth == 0 ==> SkipFrom(d, i, depth) == Fails(UnexpectedEndOfGroup))
              && ((wireType == 0 || wireType == 2) && Decode(d, j).Bad? ==>
                    SkipFrom(d, i, depth) == Fails(Decode(d, j).e))
              && (wireType == 2 && Decode(d, j).Value? ==>
                    var len, k := Decode(d, j).v, Decode(d, j).next;
                    len >= TWO_63 || k + len >= TWO_63 ==> SkipFrom(d, i, depth) == Fails(InvalidLength))
  {
    if i < |d| && Decode(d, i).Value? && Decode(d, Decode(d, i).next).Value? {
      DecodeBound(d, Decode(d, i).next);
    }
    hide Decode;
  }

  /** Where simple fields end, whether or not the input does: index arithmetic of the fixed widths. */
  lemma SkipWidths(d: bytes)
    requires 0 < |d| < TWO_63
    ensures d[0] == 0x09 ==> Skip(d) == Skipped(9)
    ensures d[0] == 0x0d ==> Skip(d) == Skipped(5)
    ensures d[0] == 0x0a && |d| > 1 && d[1] < 128 ==> Skip(d) == Skipped(2 + d[1])
    ensures d[0] == 0x08 && |d| > 1 && d[1] < 128 ==> Skip(d) == Skipped(2)
    ensures d[0] == 0x0b && |d| > 1 && d[1] == 0x0c ==> Skip(d) == Skipped(2)
  {
    OneByteHere(d, 0);
    if |d| > 1 {
      OneByteHere(d, 1);
    }
    hide Decode;
    if d[0] == 0x0b && |d| > 1 && d[1] == 0x0c {
      Round(d, 0, 0, 1, 1);
      Round(d, 1, 1, 2, 0);
    }
  }

  lemma OneByteHere(d: bytes, i: nat)
    requires i < |d|
    ensures d[i] < 128 ==> Decode(d, i) == Value(d[i], i + 1)
  {
    if d[i] < 128 {
      assert Encoding(d[i]) == [d[i]] && d[i..i + 1] == [d[i]];
      DecodeEncoding(d[i], d, i);
    }
  }
}
