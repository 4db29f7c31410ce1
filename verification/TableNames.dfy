/** When CheckTableName gives different objects different tables. */
module TableNames {
  import opened GoStrings
  import opened Conditions
  import opened Routing

  // ------------------------------------------------------------------ the name as a text

  function Suffix(keys: seq<string>, texts: map<string, string>): string
    requires forall k :: k in keys ==> k in texts
  {
    if keys == [] then "" else "_" + keys[0] + texts[keys[0]] + Suffix(keys[1..], texts)
  }

  /** Every naming field has a value with a shard text. */
  predicate Named(show: ShowAny, o: Object, data: FieldVals)
    requires forall f :: f in o.tabNaming ==> f in o.fields
  {
    forall f :: f in o.tabNaming ==> f in data && ShardText(show, o.fields[f].kind, data[f]).Ok?
  }

  function NamingTexts(show: ShowAny, o: Object, data: FieldVals): (r: map<string, string>)
    requires forall f :: f in o.tabNaming ==> f in o.fields
    requires Named(show, o, data)
    ensures forall f :: f in o.tabNaming ==> f in r && ShardText(show, o.fields[f].kind, data[f]) == Ok(r[f])
  {
    map f | f in o.tabNaming :: ShardText(show, o.fields[f].kind, data[f]).value
  }

  lemma {:induction false} NameIs(show: ShowAny, o: Object, data: FieldVals, tab: string, k: nat,
                                  texts: map<string, string>)
    requires k <= |o.tabNaming| && forall f :: f in o.tabNaming ==> f in o.fields
    requires forall f :: f in o.tabNaming ==>
               f in data && f in texts && ShardText(show, o.fields[f].kind, data[f]) == Ok(texts[f])
    ensures NameFrom(show, o, data, tab, k) == Ok(tab + Suffix(o.tabNaming[k..], texts))
    decreases |o.tabNaming| - k
  {
    hide ShardText;
    if k == |o.tabNaming| {
      assert o.tabNaming[k..] == [] && tab + "" == tab;
    } else {
      var f := o.tabNaming[k];
      var rest := o.tabNaming[k + 1..];
      assert o.tabNaming[k..][1..] == rest;
      NameIs(show, o, data, tab + "_" + f + texts[f], k + 1, texts);
      assert tab + ("_" + f + texts[f] + Suffix(rest, texts)) == tab + "_" + f + texts[f] + Suffix(rest, texts);
    }
  }

  /** Two objects share a table exactly when their naming texts make the same suffix. */
  lemma SameTable(show: ShowAny, o: Object, a: FieldVals, b: FieldVals)
    requires forall f :: f in o.tabNaming ==> f in o.fields
    requires Named(show, o, a) && Named(show, o, b)
    ensures TableName(show, o, a).Ok? && TableName(show, o, b).Ok?
    ensures TableName(show, o, a) == TableName(show, o, b) <==>
            Suffix(o.tabNaming, NamingTexts(show, o, a)) == Suffix(o.tabNaming, NamingTexts(show, o, b))
  {
    hide ShardText, NameFrom, Suffix;
    NameIs(show, o, a, o.tableName, 0, NamingTexts(show, o, a));
    NameIs(show, o, b, o.tableName, 0, NamingTexts(show, o, b));
    assert o.tabNaming[0..] == o.tabNaming;
    var s, t := Suffix(o.tabNaming, NamingTexts(show, o, a)), Suffix(o.tabNaming, NamingTexts(show, o, b));
    assert (o.tableName + s)[|o.tableName|..] == s && (o.tableName + t)[|o.tableName|..] == t;
  }

  lemma {:induction false} NamedIsMined(show: ShowAny, o: Object, data: FieldVals, tab: string, k: nat)
    requires k <= |o.tabNaming| && forall f :: f in o.tabNaming ==> f in o.fields
    requires NameFrom(show, o, data, tab, k).Ok?
    ensures forall j :: k <= j < |o.tabNaming| ==> o.tabNaming[j] in data
    decreases |o.tabNaming| - k
  {
    hide ShardText;
    if k == |o.tabNaming| {
    } else {
      var t := ShardText(show, o.fields[o.tabNaming[k]].kind, data[o.tabNaming[k]]);
      NamedIsMined(show, o, data, tab + "_" + o.tabNaming[k] + t.value, k + 1);
    }
  }

  /** A name is made exactly when every naming field has a value with a shard text. */
  lemma NameIsMade(show: ShowAny, o: Object, data: FieldVals)
    requires forall f :: f in o.tabNaming ==> f in o.fields
    ensures TableName(show, o, data).Ok? <==> Named(show, o, data)
  {
    hide ShardText;
    if Named(show, o, data) {
      NameIs(show, o, data, o.tableName, 0, NamingTexts(show, o, data));
    } else {
      var f :| f in o.tabNaming && !(f in data && ShardText(show, o.fields[f].kind, data[f]).Ok?);
      var j :| 0 <= j < |o.tabNaming| && o.tabNaming[j] == f;
      NameFails(show, o, data, o.tableName, 0, j);
    }
  }

  lemma {:induction false} NameFails(show: ShowAny, o: Object, data: FieldVals, tab: string, k: nat, j: nat)
    requires k <= j < |o.tabNaming| && forall f :: f in o.tabNaming ==> f in o.fields
    requires var f := o.tabNaming[j]; !(f in data && ShardText(show, o.fields[f].kind, data[f]).Ok?)
    ensures !NameFrom(show, o, data, tab, k).Ok?
    decreases |o.tabNaming| - k
  {
    hide ShardText;
    if k == j {
    } else {
      var f := o.tabNaming[k];
      if f in data && ShardText(show, o.fields[f].kind, data[f]).Ok? {
        var t := ShardText(show, o.fields[f].kind, data[f]).value;
        NameFails(show, o, data, tab + "_" + f + t, k + 1, j);
      }
    }
  }

  /** A missing first naming field is rejected; a first one of the wrong type fails its assertion. */
  lemma FirstFieldFails(show: ShowAny, o: Object, data: FieldVals)
    requires o.tabNaming != [] && forall f :: f in o.tabNaming ==> f in o.fields
    ensures o.tabNaming[0] !in data ==> TableName(show, o, data) == Rejected
    ensures o.tabNaming[0] in data && o.fields[o.tabNaming[0]].kind == StringKind && !data[o.tabNaming[0]].Text? ==>
              TableName(show, o, data) == Crash
  {
  }

  /** The integer that "%.0f" prints: the nearest, and the even one of two. */
  predicate Nearest(z: int, r: real) {
    -0.5 <= r - z as real <= 0.5 && ((r - z as real == 0.5 || r - z as real == -0.5) ==> z % 2 == 0)
  }

  /** The text of a naming value: decimal for integers and floats, the text itself, "%v" for other kinds. */
  lemma ShardTextIs(show: ShowAny, kind: Kind, v: Value)
    ensures kind == IntKind && v.Number? ==> ShardText(show, kind, v) == Ok(Itoa(v.n))
    ensures kind == IntKind && v.Float? ==> exists z :: Nearest(z, v.r) && ShardText(show, kind, v) == Ok(Itoa(z))
    ensures kind == IntKind && !v.Number? && !v.Float? ==> ShardText(show, kind, v) == Crash
    ensures kind == StringKind ==> ShardText(show, kind, v) == if v.Text? then Ok(v.s) else Crash
    ensures kind != IntKind && kind != StringKind ==> ShardText(show, kind, v) == Ok(show(v))
  {
    if v.Float? {
      assert Nearest(RoundEven(v.r), v.r);
    }
  }

  /** Prefix, then for every naming field "_", its key and its text. */
  lemma NameSpelled(show: ShowAny, n: int, r: real)
    requires -0.5 < r - n as real < 0.5
    ensures TableName(show, ONE_NUMBER, map["id" := Number(n)]) == Ok("t_id" + Itoa(n))
    ensures TableName(show, ONE_NUMBER, map["id" := Float(r)]) == Ok("t_id" + Itoa(n))
  {
    hide Itoa;
    var o, a: FieldVals, b: FieldVals := ONE_NUMBER, map["id" := Number(n)], map["id" := Float(r)];
    var t := "t" + "_" + "id" + Itoa(n);
    assert t == "t_id" + Itoa(n) && o.tabNaming[0] == "id";
    assert NameFrom(show, o, a, t, 1) == Ok(t) && NameFrom(show, o, b, t, 1) == Ok(t);
    assert NameFrom(show, o, a, "t", 0) == Ok(t);
    assert RoundEven(r) == n;
    assert NameFrom(show, o, b, "t", 0) == Ok(t);
  }

  const ID_FIELD := Field("id", IntKind, "o", "id", "id")
  const ONE_NUMBER := Object("o", "t", ["id"], map["id" := ID_FIELD])

  // ------------------------------------------------------------------ one field differs

  predicate OneDiffers(keys: seq<string>, a: map<string, string>, b: map<string, string>, k: string) {
    && (forall f :: f in keys ==> f in a && f in b)
    && (forall f :: f in keys && f != k ==> a[f] == b[f])
  }

  /** With a longer text at k the name is longer. */
  lemma {:induction false} SuffixLength(keys: seq<string>, a: map<string, string>, b: map<string, string>, k: string)
    requires OneDiffers(keys, a, b, k) && (k in keys ==> |a[k]| <= |b[k]|)
    ensures |Suffix(keys, a)| <= |Suffix(keys, b)|
    ensures k in keys && |a[k]| < |b[k]| ==> |Suffix(keys, a)| < |Suffix(keys, b)|
  {
    if keys == [] {
    } else {
      SuffixLength(keys[1..], a, b, k);
    }
  }

  /** With texts of one length the names part where k first stands. */
  lemma {:induction false} SuffixParts(keys: seq<string>, a: map<string, string>, b: map<string, string>, k: string)
    requires OneDiffers(keys, a, b, k) && k in keys && |a[k]| == |b[k]| && a[k] != b[k]
    ensures Suffix(keys, a) != Suffix(keys, b)
  {
    var head := "_" + keys[0];
    var ra, rb := Suffix(keys[1..], a), Suffix(keys[1..], b);
    var n := |head| + |a[keys[0]]|;
    assert Suffix(keys, a)[..n] == head + a[keys[0]] && Suffix(keys, a)[n..] == ra;
    assert Suffix(keys, b)[..n] == head + b[keys[0]] && Suffix(keys, b)[n..] == rb;
    if keys[0] == k {
      assert (head + a[k])[|head|..] == a[k] && (head + b[k])[|head|..] == b[k];
    } else {
      SuffixParts(keys[1..], a, b, k);
    }
  }

  lemma SuffixesDiffer(keys: seq<string>, a: map<string, string>, b: map<string, string>, k: string)
    requires OneDiffers(keys, a, b, k) && k in keys && a[k] != b[k]
    ensures Suffix(keys, a) != Suffix(keys, b)
  {
    if |a[k]| < |b[k]| {
      SuffixLength(keys, a, b, k);
    } else if |b[k]| < |a[k]| {
      SuffixLength(keys, b, a, k);
    } else {
      SuffixParts(keys, a, b, k);
    }
  }

  /** Objects whose shard texts differ in exactly one naming field are stored in different tables. */
  lemma NamesDiffer(show: ShowAny, o: Object, a: FieldVals, b: FieldVals, k: string)
    requires forall f :: f in o.tabNaming ==> f in o.fields
    requires Named(show, o, a) && Named(show, o, b) && k in o.tabNaming
    requires forall f :: f in o.tabNaming ==>
               (ShardText(show, o.fields[f].kind, a[f]) == ShardText(show, o.fields[f].kind, b[f]) <==> f != k)
    ensures TableName(show, o, a) != TableName(show, o, b)
  {
    SameTable(show, o, a, b);
    hide ShardText, Suffix, TableName;
    SuffixesDiffer(o.tabNaming, NamingTexts(show, o, a), NamingTexts(show, o, b), k);
  }

  // ------------------------------------------------------------------ when names are injective

  /** t cannot run into the key that follows it: it has no "_", or the key has none and t lacks "_" and the key. */
  ghost predicate Tame(t: string, next: string) {
    '_' !in t || ('_' !in next && forall j: nat :: !MatchAt(t, "_" + next, j))
  }

  ghost predicate AllTame(keys: seq<string>, texts: map<string, string>)
    requires forall k :: k in keys ==> k in texts
  {
    forall i :: 0 <= i < |keys| - 1 ==> Tame(texts[keys[i]], keys[i + 1])
  }

  /** A longer tame text cannot be made up for by what follows the shorter one. */
  lemma NotLonger(s: string, t: string, next: string, x: string, y: string)
    requires |s| < |t| && Tame(t, next)
    ensures s + ("_" + next + x) != t + ("_" + next + y)
  {
    var p, q := "_" + next, |t| - |s|;
    var l, r := s + (p + x), t + (p + y);
    assert l[|s|] == '_' && r[|s|] == t[|s|] && r[|t|] == '_';
    if q > |next| {
      assert l[|s|..|s| + |p|] == p && r[|s|..|s| + |p|] == t[|s|..|s| + |p|];
      assert MatchAt(t, p, |s|) <==> t[|s|..|s| + |p|] == p;
    } else {
      assert l[|t|] == (p + x)[q] == next[q - 1];
    }
  }

  /** Tame texts can be read back from the name. */
  lemma {:induction false} SuffixInjective(keys: seq<string>, a: map<string, string>, b: map<string, string>)
    requires forall k :: k in keys ==> k in a && k in b
    requires AllTame(keys, a) && AllTame(keys, b) && Suffix(keys, a) == Suffix(keys, b)
    ensures forall k :: k in keys ==> a[k] == b[k]
  {
    if keys == [] {
    } else {
      var rest := keys[1..];
      var s, t, head := a[keys[0]], b[keys[0]], "_" + keys[0];
      var ra, rb := Suffix(rest, a), Suffix(rest, b);
      assert head + s + ra == head + (s + ra) && head + t + rb == head + (t + rb);
      assert (head + (s + ra))[|head|..] == s + ra && (head + (t + rb))[|head|..] == t + rb;
      if rest == [] {
        assert s + "" == s && t + "" == t;
      } else {
        assert Tame(s, keys[1]) && Tame(t, keys[1]);
        SameHead(s, t, rest, a, b);
        assert (s + ra)[|s|..] == ra && (t + rb)[|t|..] == rb;
        assert forall i :: 0 <= i < |rest| ==> rest[i] == keys[i + 1];
        TameTail(keys, a);
        TameTail(keys, b);
        SuffixInjective(rest, a, b);
      }
    }
  }

  lemma TameTail(keys: seq<string>, a: map<string, string>)
    requires keys != [] && (forall k :: k in keys ==> k in a) && AllTame(keys, a)
    ensures AllTame(keys[1..], a)
  {
    hide Tame;
    var rest := keys[1..];
    forall i | 0 <= i < |rest| - 1
      ensures Tame(a[rest[i]], rest[i + 1])
    {
      assert rest[i] == keys[i + 1] && rest[i + 1] == keys[i + 1 + 1];
    }
  }

  lemma SameHead(s: string, t: string, rest: seq<string>, a: map<string, string>, b: map<string, string>)
    requires rest != [] && (forall k :: k in rest ==> k in a && k in b)
    requires Tame(s, rest[0]) && Tame(t, rest[0])
    requires s + Suffix(rest, a) == t + Suffix(rest, b)
    ensures s == t
  {
    var next := rest[0];
    var x, y := a[next] + Suffix(rest[1..], a), b[next] + Suffix(rest[1..], b);
    hide *;
    SuffixHead(rest, a);
    SuffixHead(rest, b);
    Heads(s, t, next, x, y);
  }

  lemma SuffixHead(keys: seq<string>, a: map<string, string>)
    requires keys != [] && forall k :: k in keys ==> k in a
    ensures Suffix(keys, a) == "_" + keys[0] + (a[keys[0]] + Suffix(keys[1..], a))
  {
    var x, y, z := "_" + keys[0], a[keys[0]], Suffix(keys[1..], a);
    assert x + y + z == x + (y + z);
  }

  lemma Heads(s: string, t: string, next: string, x: string, y: string)
    requires Tame(s, next) && Tame(t, next) && s + ("_" + next + x) == t + ("_" + next + y)
    ensures s == t
  {
    hide *;
    if |s| < |t| {
      NotLonger(s, t, next, x, y);
    } else if |t| < |s| {
      NotLonger(t, s, next, y, x);
    } else {
      assert (s + ("_" + next + x))[..|s|] == s && (t + ("_" + next + y))[..|t|] == t;
    }
  }

  /** CheckTableName is injective on tame shard texts: one table, the same texts in every naming field. */
  lemma NamesInjective(show: ShowAny, o: Object, a: FieldVals, b: FieldVals)
    requires forall f :: f in o.tabNaming ==> f in o.fields
    requires Named(show, o, a) && Named(show, o, b)
    requires AllTame(o.tabNaming, NamingTexts(show, o, a)) && AllTame(o.tabNaming, NamingTexts(show, o, b))
    ensures TableName(show, o, a) == TableName(show, o, b) <==>
            forall f :: f in o.tabNaming ==>
              ShardText(show, o.fields[f].kind, a[f]) == ShardText(show, o.fields[f].kind, b[f])
  {
    SameTable(show, o, a, b);
    var s, t := NamingTexts(show, o, a), NamingTexts(show, o, b);
    hide ShardText, TableName, AllTame, Tame;
    if Suffix(o.tabNaming, s) == Suffix(o.tabNaming, t) {
      hide Suffix;
      SuffixInjective(o.tabNaming, s, t);
    } else {
      hide Suffix;
      if forall f :: f in o.tabNaming ==> s[f] == t[f] {
        SameSuffix(o.tabNaming, s, t);
      }
    }
  }

  lemma {:induction false} SameSuffix(keys: seq<string>, a: map<string, string>, b: map<string, string>)
    requires forall k :: k in keys ==> k in a && k in b && a[k] == b[k]
    ensures Suffix(keys, a) == Suffix(keys, b)
  {
    if keys == [] {
    } else {
      SameSuffix(keys[1..], a, b);
    }
  }

  /** Decimal numbers are tame. */
  lemma IntegersTame(n: int, next: string)
    ensures Tame(Itoa(n), next)
  {
    ItoaTrimmed(n);
  }

  // ------------------------------------------------------------------ values and texts

  lemma ItoaInjective(m: int, n: int)
    requires Itoa(m) == Itoa(n)
    ensures m == n
  {
    DecimalRoundTrip(if m < 0 then -m else m);
    DecimalRoundTrip(if n < 0 then -n else n);
    assert Itoa(m)[0] == '-' <==> m < 0;
    assert Itoa(n)[0] == '-' <==> n < 0;
    if m < 0 && n < 0 {
      assert Itoa(m)[1..] == Decimal(-m) && Itoa(n)[1..] == Decimal(-n);
    }
  }

  /** A naming value as the parser types it, and as the database holds it. */
  predicate Typed(kind: Kind, v: Value) {
    (kind == IntKind && v.Number?) || (kind == StringKind && v.Text?)
  }

  lemma TypedTexts(show: ShowAny, kind: Kind, a: Value, b: Value)
    requires Typed(kind, a) && Typed(kind, b)
    ensures ShardText(show, kind, a).Ok? && ShardText(show, kind, b).Ok?
    ensures ShardText(show, kind, a) == ShardText(show, kind, b) <==> a == b
  {
    hide Itoa;
    if kind == IntKind && Itoa(a.n) == Itoa(b.n) {
      ItoaInjective(a.n, b.n);
    }
  }

  /** What is stored prints the shard text of what was given. */
  lemma StoredText(show: ShowAny, kind: Kind, data: Value)
    requires Nameable(kind, data)
    ensures Typed(kind, Stored(kind, data))
    ensures ShardText(show, kind, data) == ShardText(show, kind, Stored(kind, data))
  {
    if data.Float? {
      assert RoundEven(data.r) == data.r.Floor;
    }
  }

  // ------------------------------------------------------------------ where they are not

  const A_FIELD := Field("a", StringKind, "o", "a", "a")
  const B_FIELD := Field("b", StringKind, "o", "b", "b")
  const TWO_TEXTS := Object("o", "t", ["a", "b"], map["a" := A_FIELD, "b" := B_FIELD])

  /** Texts that run into the next key: (x_by, z) and (x, y_bz) are both stored in t_ax_by_bz. */
  lemma Collision(show: ShowAny)
    ensures TableName(show, TWO_TEXTS, map["a" := Text("x_by"), "b" := Text("z")]) == Ok("t_ax_by_bz")
    ensures TableName(show, TWO_TEXTS, map["a" := Text("x"), "b" := Text("y_bz")]) == Ok("t_ax_by_bz")
  {
    NamesTwo(show, "x_by", "z");
    NamesTwo(show, "x", "y_bz");
    assert "t_a" + "x_by" + "_b" + "z" == "t_ax_by_bz" == "t_a" + "x" + "_b" + "y_bz";
  }

  lemma NamesTwo(show: ShowAny, x: string, y: string)
    ensures TableName(show, TWO_TEXTS, map["a" := Text(x), "b" := Text(y)]) == Ok("t_a" + x + "_b" + y)
  {
    var o, data: FieldVals := TWO_TEXTS, map["a" := Text(x), "b" := Text(y)];
    assert "a"[0] != "b"[0];
    var t := "t" + "_" + "a" + x;
    assert t == "t_a" + x && t + "_" + "b" + y == "t_a" + x + "_b" + y;
    assert o.tabNaming[0] == "a" && o.tabNaming[1] == "b" && o.fields["a"] == A_FIELD && o.fields["b"] == B_FIELD;
    assert NameFrom(show, o, data, t + "_" + "b" + y, 2) == Ok(t + "_" + "b" + y);
    assert NameFrom(show, o, data, t, 1) == Ok(t + "_" + "b" + y);
  }
}
