/** Composite keys and partial composite key queries, as in fabric_shim/stub.py. */
module CompositeKey {
  import opened Wrappers
  import opened Strings

  const NUL: char := '\U{0}'
  const MAX: char := '\U{10FFFF}'

  /** An argument of the stub: a string or some other object. */
  datatype Value = Text(s: string) | NotText

  /** The attributes argument: a sequence of values or something else. */
  datatype Attributes = Sequence(values: seq<Value>) | NotSequence

  datatype KeyError = NotNonEmptyString | AttributesNotArray

  /** validate_composite_key_attribute. */
  predicate Acceptable(v: Value) {
    v.Text? && v.s != ""
  }

  function Texts(vs: seq<Value>): seq<string>
    requires forall v | v in vs :: v.Text?
  {
    seq(|vs|, i requires 0 <= i < |vs| => vs[i].s)
  }

  /** Every part followed by NUL. */
  function Join(parts: seq<string>): string {
    if parts == [] then "" else parts[0] + [NUL] + Join(parts[1..])
  }

  function KeyOf(objectType: string, attributes: seq<string>): string {
    [NUL] + objectType + [NUL] + Join(attributes)
  }

  predicate NulFree(s: string) {
    NUL !in s
  }

  predicate AllNulFree(parts: seq<string>) {
    forall p | p in parts :: NulFree(p)
  }

  lemma {:induction false} JoinAppend(parts: seq<string>, last: string)
    ensures Join(parts + [last]) == Join(parts) + last + [NUL]
  {
    if parts == [] {
      assert [last][1..] == [];
    } else {
      JoinAppend(parts[1..], last);
      assert (parts + [last])[1..] == parts[1..] + [last];
    }
  }

  predicate AllAcceptable(vs: seq<Value>) {
    forall v | v in vs :: Acceptable(v)
  }

  method CreateCompositeKey(objectType: Value, attributes: Attributes) returns (r: Result<string, KeyError>)
    ensures r.Ok? <==>
              && objectType.Text? && objectType.s != ""
              && attributes.Sequence? && forall v | v in attributes.values :: v.Text? && v.s != ""
    ensures r.Ok? ==> r.value == KeyOf(objectType.s, Texts(attributes.values))
    ensures r == Err(AttributesNotArray) <==> objectType.Text? && objectType.s != "" && attributes.NotSequence?
  {
    if !Acceptable(objectType) {
      return Err(NotNonEmptyString);
    }
    if attributes.NotSequence? {
      return Err(AttributesNotArray);
    }
    var values := attributes.values;
    var key := [NUL] + objectType.s + [NUL];
    assert values[..0] == [] && Texts(values[..0]) == [];
    for i := 0 to |values|
      invariant AllAcceptable(values[..i])
      invariant key == KeyOf(objectType.s, Texts(values[..i]))
    {
      if !Acceptable(values[i]) {
        return Err(NotNonEmptyString);
      }
      JoinAppend(Texts(values[..i]), values[i].s);
      assert Texts(values[..i + 1]) == Texts(values[..i]) + [values[i].s];
      key := key + values[i].s + [NUL];
    }
    assert values[..|values|] == values;
    return Ok(key);
  }

  /** Python's split on a single character. */
  function SplitOn(s: string, c: char): (parts: seq<string>)
    ensures parts != []
    ensures forall p | p in parts :: c !in p
  {
    if s == [] then [""]
    else
      var rest := SplitOn(s[1..], c);
      if s[0] == c then [""] + rest else [[s[0]] + rest[0]] + rest[1..]
  }

  /** split_composite_key; the object type is None for what does not start like such a key. */
  function Decode(key: string): (Option<string>, seq<string>) {
    if |key| <= 1 || key[0] != NUL then (None, [])
    else
      var parts := SplitOn(key[1..], NUL);
      (Some(parts[0]), if |parts| > 2 then parts[1..|parts| - 1] else [])
  }

  method SplitCompositeKey(key: string) returns (objectType: Option<string>, attributes: seq<string>)
    ensures (objectType, attributes) == Decode(key)
  {
    objectType, attributes := None, [];
    if |key| > 1 && key[0] == NUL {
      var splitKey := SplitOn(key[1..], NUL);
      objectType := Some(splitKey[0]);
      splitKey := splitKey[..|splitKey| - 1];
      if |splitKey| > 1 {
        splitKey := splitKey[1..];
        attributes := splitKey;
      }
    }
  }

  // ----- Round trips -----

  /** Join of all parts but the last, and then the last without NUL behind it. */
  function Rejoin(parts: seq<string>): string
    requires parts != []
  {
    Join(parts[..|parts| - 1]) + parts[|parts| - 1]
  }

  lemma RejoinNewPart(parts: seq<string>)
    requires parts != []
    ensures Rejoin([""] + parts) == [NUL] + Rejoin(parts)
  {
    var whole := [""] + parts;
    assert whole[..|whole| - 1] == [""] + parts[..|parts| - 1];
    assert (whole[..|whole| - 1])[1..] == parts[..|parts| - 1];
  }

  lemma RejoinLongerPart(c: char, parts: seq<string>)
    requires parts != []
    ensures Rejoin([[c] + parts[0]] + parts[1..]) == [c] + Rejoin(parts)
  {
    var whole := [[c] + parts[0]] + parts[1..];
    if |parts| > 1 {
      var a, b := whole[..|whole| - 1], parts[..|parts| - 1];
      assert a[1..] == b[1..] && a[0] == [c] + b[0];
      assert Join(a) == [c] + Join(b);
    }
  }

  lemma {:induction false} JoinOfSplit(s: string)
    ensures Rejoin(SplitOn(s, NUL)) == s
  {
    if s == [] {
    } else {
      var rest := SplitOn(s[1..], NUL);
      JoinOfSplit(s[1..]);
      if s[0] == NUL {
        RejoinNewPart(rest);
      } else {
        RejoinLongerPart(s[0], rest);
      }
    }
  }

  lemma {:induction false} SplitOfPart(p: string, s: string)
    requires NulFree(p)
    ensures SplitOn(p + [NUL] + s, NUL) == [p] + SplitOn(s, NUL)
  {
    var whole := p + [NUL] + s;
    if p == [] {
      assert whole[1..] == s;
    } else {
      assert whole[1..] == p[1..] + [NUL] + s && whole[0] == p[0] != NUL;
      SplitOfPart(p[1..], s);
      var rest := SplitOn(whole[1..], NUL);
      assert rest[0] == p[1..] && rest[1..] == SplitOn(s, NUL);
      assert [p[0]] + p[1..] == p;
    }
  }

  lemma {:induction false} SplitOfJoin(parts: seq<string>)
    requires AllNulFree(parts)
    ensures SplitOn(Join(parts), NUL) == parts + [""]
  {
    if parts == [] {
    } else {
      SplitOfPart(parts[0], Join(parts[1..]));
      SplitOfJoin(parts[1..]);
    }
  }

  /** Splitting a key gives back its components exactly when none of them contains NUL; the
      stub does not check that. */
  lemma RoundTripExactlyWhenNulFree(objectType: string, attributes: seq<string>)
    ensures Decode(KeyOf(objectType, attributes)) == (Some(objectType), attributes)
            <==> NulFree(objectType) && AllNulFree(attributes)
  {
    var key := KeyOf(objectType, attributes);
    var all := [objectType] + attributes;
    assert key[1..] == Join(all);
    if NulFree(objectType) && AllNulFree(attributes) {
      SplitOfJoin(all);
      var parts := SplitOn(key[1..], NUL);
      assert parts[1..|parts| - 1] == attributes;
    }
    if Decode(key) == (Some(objectType), attributes) {
      var parts := SplitOn(key[1..], NUL);
      assert objectType in parts && forall a | a in attributes :: a in parts;
    }
  }

  /** What a string is split into: if it begins with NUL and has more characters, an object type and
      attributes without NUL whose key it is, apart from a last part without NUL behind it; or it
      has no further NUL and is an object type only. Anything else has no object type. */
  lemma DecodedExactly(key: string)
    ensures var (t, a) := Decode(key);
            if |key| > 1 && key[0] == NUL then
              && t.Some? && NulFree(t.value) && AllNulFree(a)
              && ((a == [] && key == [NUL] + t.value)
                  || exists last :: NulFree(last) && key == KeyOf(t.value, a) + last)
            else t == None && a == []
  {
    if |key| > 1 && key[0] == NUL {
      var parts := SplitOn(key[1..], NUL);
      var n := |parts| - 1;
      JoinOfSplit(key[1..]);
      assert key == [NUL] + key[1..];
      var (t, a) := Decode(key);
      if n > 0 {
        assert parts[..n] == [parts[0]] + a && ([parts[0]] + a)[1..] == a;
        assert NulFree(parts[n]) && key == KeyOf(t.value, a) + parts[n];
      } else {
        assert Join(parts[..n]) == "";
      }
    }
  }

  /** key consists of at least one non-empty part, with NUL before, between and after. */
  predicate IsCompositeKey(key: string) {
    && |key| > 1 && key[0] == NUL && key[|key| - 1] == NUL
    && (var parts := SplitOn(key[1..], NUL);
        forall i | 0 <= i < |parts| - 1 :: parts[i] != "")
  }

  /** create_composite_key accepts what split_composite_key makes of key, and yields key. */
  predicate Recreated(key: string) {
    var (objectType, attributes) := Decode(key);
    && objectType.Some? && objectType.value != "" && (forall a | a in attributes :: a != "")
    && KeyOf(objectType.value, attributes) == key
  }

  /** Splitting a string and creating a key from what comes out gives the string back exactly
      when it is a composite key. */
  lemma RecreatedExactlyWhenCompositeKey(key: string)
    ensures Recreated(key) <==> IsCompositeKey(key)
  {
    if |key| > 1 && key[0] == NUL {
      var parts := SplitOn(key[1..], NUL);
      var n := |parts| - 1;
      JoinOfSplit(key[1..]);
      var (objectType, attributes) := Decode(key);
      if IsCompositeKey(key) {
        EndsEmpty(key[1..]);
        assert parts[..n] == [parts[0]] + attributes;
        assert parts[..n][1..] == attributes;
      }
      if Recreated(key) {
        EndsWithNul(objectType.value, attributes);
        assert forall i | 0 < i < n :: parts[i] in attributes;
      }
    }
  }

  /** A string ends with NUL exactly when its last part is empty and not its only one. */
  lemma {:induction false} EndsEmpty(s: string)
    requires s != []
    ensures var parts := SplitOn(s, NUL);
            s[|s| - 1] == NUL <==> |parts| > 1 && parts[|parts| - 1] == ""
  {
    if |s| > 1 {
      EndsEmpty(s[1..]);
    } else {
      assert SplitOn(s[1..], NUL) == [""];
    }
  }

  lemma EndsWithNul(objectType: string, attributes: seq<string>)
    ensures var key := KeyOf(objectType, attributes); key[|key| - 1] == NUL
  {
    if attributes != [] {
      var n := |attributes| - 1;
      JoinAppend(attributes[..n], attributes[n]);
      assert attributes[..n] + [attributes[n]] == attributes;
    }
  }

  // ----- Which components share a key -----

  /** Components that create_composite_key accepts. */
  predicate Accepted(objectType: string, attributes: seq<string>) {
    objectType != "" && forall i | 0 <= i < |attributes| :: attributes[i] != ""
  }

  /** What is left of the components when they are cut at every NUL in them. */
  function Pieces(parts: seq<string>): seq<string> {
    if parts == [] then [] else SplitOn(parts[0], NUL) + Pieces(parts[1..])
  }

  /** The parts of a string with one character more in front. */
  function Front(c: char, parts: seq<string>): seq<string>
    requires parts != []
  {
    if c == NUL then [""] + parts else [[c] + parts[0]] + parts[1..]
  }

  lemma SplitStep(c: char, s: string)
    ensures SplitOn([c] + s, NUL) == Front(c, SplitOn(s, NUL))
  {
    assert ([c] + s)[1..] == s;
  }

  lemma FrontOfConcat(c: char, parts: seq<string>, more: seq<string>)
    requires parts != []
    ensures Front(c, parts + more) == Front(c, parts) + more
  {
    assert (parts + more)[1..] == parts[1..] + more;
  }

  lemma SplitConcatStep(c: char, q: string, s: string)
    requires SplitOn(q + [NUL] + s, NUL) == SplitOn(q, NUL) + SplitOn(s, NUL)
    ensures SplitOn([c] + (q + [NUL] + s), NUL) == SplitOn([c] + q, NUL) + SplitOn(s, NUL)
  {
    SplitStep(c, q);
    SplitStep(c, q + [NUL] + s);
    FrontOfConcat(c, SplitOn(q, NUL), SplitOn(s, NUL));
  }

  lemma {:induction false} SplitConcat(p: string, s: string)
    ensures SplitOn(p + [NUL] + s, NUL) == SplitOn(p, NUL) + SplitOn(s, NUL)
  {
    if p == "" {
      SplitStep(NUL, s);
      assert p + [NUL] + s == [NUL] + s;
    } else {
      SplitConcat(p[1..], s);
      SplitConcatStep(p[0], p[1..], s);
      assert [p[0]] + p[1..] == p && [p[0]] + (p[1..] + [NUL] + s) == p + [NUL] + s;
    }
  }

  lemma {:induction false} SplitOfNulFree(p: string)
    requires NulFree(p)
    ensures SplitOn(p, NUL) == [p]
  {
    if p == "" {
    } else {
      SplitOfNulFree(p[1..]);
      assert [p[0]] + p[1..] == p;
    }
  }

  lemma {:induction false} SplitIntoPieces(parts: seq<string>)
    ensures SplitOn(Join(parts), NUL) == Pieces(parts) + [""]
  {
    if parts == [] {
    } else {
      SplitConcat(parts[0], Join(parts[1..]));
      SplitIntoPieces(parts[1..]);
    }
  }

  lemma SameJoinExactlyWhen(a: seq<string>, b: seq<string>)
    ensures Join(a) == Join(b) <==> Pieces(a) == Pieces(b)
  {
    SplitIntoPieces(a);
    SplitIntoPieces(b);
    JoinOfSplit(Join(a));
    JoinOfSplit(Join(b));
    assert Pieces(a) == (Pieces(a) + [""])[..|Pieces(a)|];
    assert Pieces(b) == (Pieces(b) + [""])[..|Pieces(b)|];
  }

  /** Two lists of components have the same key if and only if they are cut into the same
      pieces. */
  lemma SameKeyExactlyWhen(t: string, a: seq<string>, t': string, a': seq<string>)
    ensures KeyOf(t, a) == KeyOf(t', a') <==> Pieces([t] + a) == Pieces([t'] + a')
  {
    assert KeyOf(t, a) == [NUL] + Join([t] + a) && KeyOf(t', a') == [NUL] + Join([t'] + a');
    assert KeyOf(t, a)[1..] == Join([t] + a) && KeyOf(t', a')[1..] == Join([t'] + a');
    SameJoinExactlyWhen([t] + a, [t'] + a');
  }

  lemma {:induction false} NulFreePieces(parts: seq<string>)
    requires AllNulFree(parts)
    ensures Pieces(parts) == parts
  {
    if parts == [] {
    } else {
      SplitOfNulFree(parts[0]);
      NulFreePieces(parts[1..]);
    }
  }

  /** Among lists of components without NUL every list has a key of its own. */
  lemma NulFreeKeysDiffer(t: string, a: seq<string>, t': string, a': seq<string>)
    requires NulFree(t) && NulFree(t') && AllNulFree(a) && AllNulFree(a')
    ensures KeyOf(t, a) == KeyOf(t', a') <==> t == t' && a == a'
  {
    SameKeyExactlyWhen(t, a, t', a');
    NulFreePieces([t] + a);
    NulFreePieces([t'] + a');
    assert ([t] + a)[0] == t && ([t] + a)[1..] == a && ([t'] + a')[0] == t' && ([t'] + a')[1..] == a';
  }

  /** s has NUL somewhere between its first and its last character. */
  ghost predicate InnerNul(s: string) {
    exists i | 0 < i < |s| - 1 :: s[i] == NUL
  }

  /** Some other components that create_composite_key accepts have the same key. */
  ghost predicate KeyShared(t: string, a: seq<string>) {
    exists t', a' :: Accepted(t', a') && (t', a') != (t, a) && KeyOf(t', a') == KeyOf(t, a)
  }

  /** The object type and an attribute can be merged, with NUL in between. */
  lemma MergedKey(t: string, a: seq<string>)
    requires Accepted(t, a) && a != []
    ensures KeyOf(t + [NUL] + a[0], a[1..]) == KeyOf(t, a) && Accepted(t + [NUL] + a[0], a[1..]) && KeyShared(t, a)
  {
    assert KeyOf(t, a) == [NUL] + t + [NUL] + (a[0] + [NUL] + Join(a[1..]));
    assert KeyOf(t + [NUL] + a[0], a[1..]) == KeyOf(t, a);
  }

  /** And they can be cut at an inner NUL. */
  lemma CutKey(t: string, a: seq<string>, i: nat)
    requires Accepted(t, a) && 0 < i < |t| - 1 && t[i] == NUL
    ensures KeyOf(t[..i], [t[i + 1..]] + a) == KeyOf(t, a) && Accepted(t[..i], [t[i + 1..]] + a) && KeyShared(t, a)
  {
    var a' := [t[i + 1..]] + a;
    assert a'[1..] == a && t == t[..i] + [NUL] + t[i + 1..];
    assert KeyOf(t[..i], a') == KeyOf(t, a);
  }

  lemma CutShowsInnerNul(t: string, t': string, a': seq<string>)
    requires Accepted(t', a') && a' != [] && KeyOf(t', a') == KeyOf(t, [])
    ensures InnerNul(t)
  {
    var rest := KeyOf(t, [])[1..];
    assert rest == t + [NUL] && KeyOf(t', a')[1..] == t' + [NUL] + Join(a');
    assert |Join(a')| >= |a'[0]| + 1 >= 2;
    assert |t| == |t'| + |Join(a')| && t[|t'|] == rest[|t'|] == NUL;
  }

  lemma BareKeyIsItsOwn(t: string, t': string)
    requires KeyOf(t', []) == KeyOf(t, [])
    ensures t' == t
  {
    assert KeyOf(t, []) == [NUL] + t + [NUL] && KeyOf(t', []) == [NUL] + t' + [NUL];
    assert t == KeyOf(t, [])[1..|t| + 1] && t' == KeyOf(t', [])[1..|t'| + 1];
  }

  /** The key of accepted components is shared with others, whether or not NUL occurs in them,
      if and only if there is an attribute or the object type has an inner NUL. */
  lemma KeySharedExactlyWhen(t: string, a: seq<string>)
    requires Accepted(t, a)
    ensures KeyShared(t, a) <==> a != [] || InnerNul(t)
  {
    if a != [] {
      MergedKey(t, a);
    } else if InnerNul(t) {
      var i :| 0 < i < |t| - 1 && t[i] == NUL;
      CutKey(t, a, i);
    } else if KeyShared(t, a) {
      var t', a' :| Accepted(t', a') && (t', a') != (t, a) && KeyOf(t', a') == KeyOf(t, a);
      if a' == [] {
        BareKeyIsItsOwn(t, t');
      } else {
        CutShowsInnerNul(t, t', a');
      }
    }
  }

  /** An attribute with NUL in it collides with two attributes. */
  lemma NulMakesKeysCollide(objectType: string, a: string, b: string)
    ensures KeyOf(objectType, [a + [NUL] + b]) == KeyOf(objectType, [a, b])
    ensures objectType != "" && a != "" && b != "" ==>
              Accepted(objectType, [a + [NUL] + b]) && Accepted(objectType, [a, b])
  {
    assert [a, b][1..] == [b] && [b][1..] == [] && [a + [NUL] + b][1..] == [];
    assert Join([b]) == b + [NUL];
  }

  // ----- Partial composite key queries -----

  /** The keys that the ledger returns for a range. */
  predicate InRange(start: string, end: string, key: string) {
    AtMost(start, key) && Less(key, end)
  }

  /** get_state_by_partial_composite_key: the range it asks for. */
  method PartialKeyRange(objectType: Value, attributes: Attributes) returns (r: Result<(string, string), KeyError>)
    ensures r.Ok? <==> Acceptable(objectType) && attributes.Sequence? && AllAcceptable(attributes.values)
    ensures r.Ok? ==>
      var full := KeyOf(objectType.s, Texts(attributes.values));
      forall key :: InRange(r.value.0, r.value.1, key) <==> full <= key && (|key| == |full| || key[|full|] != MAX)
  {
    var fullKey := CreateCompositeKey(objectType, attributes);
    if fullKey.Err? {
      return Err(fullKey.error);
    }
    var endKey := fullKey.value + [MAX];
    forall key {
      PrefixRange(fullKey.value, key);
    }
    return Ok((fullKey.value, endKey));
  }

  /** The range from p to p followed by the last code point: the extensions of p, except those
      that go on with that code point. */
  lemma {:induction false} PrefixRange(p: string, key: string)
    ensures InRange(p, p + [MAX], key) <==> p <= key && (|key| == |p| || key[|p|] != MAX)
  {
    if p == [] {
      assert p + [MAX] == [MAX];
      BelowMax(key);
    } else if key == [] {
      assert !AtMost(p, key);
    } else {
      var p', key' := p[1..], key[1..];
      assert p == [p[0]] + p' && key == [key[0]] + key';
      PrefixRange(p', key');
      SameHead(p, key);
      SameHead(key, p + [MAX]);
      assert (p + [MAX])[1..] == p' + [MAX];
      assert p <= key <==> p[0] == key[0] && p' <= key';
    }
  }

  lemma SameHead(a: string, b: string)
    requires a != [] && b != []
    ensures Less(a, b) <==> a[0] < b[0] || (a[0] == b[0] && Less(a[1..], b[1..]))
    ensures AtMost(a, b) <==> a[0] < b[0] || (a[0] == b[0] && AtMost(a[1..], b[1..]))
  {
    assert a == [a[0]] + a[1..] && b == [b[0]] + b[1..];
  }

  /** The strings below that of the last code point. */
  lemma BelowMax(key: string)
    ensures Less(key, [MAX]) <==> key == [] || key[0] != MAX
    ensures AtMost([], key)
  {
    assert [MAX][1..] == [];
    if key != [] {
      assert !Less(key[1..], []);
    }
  }

  lemma {:induction false} SamePart(p: string, x: string, q: string, y: string)
    requires NulFree(p) && NulFree(q)
    ensures p + [NUL] + x <= q + [NUL] + y <==> p == q && x <= y
  {
    var a, b := p + [NUL] + x, q + [NUL] + y;
    if p == [] && q == [] {
      assert a == [NUL] + x && b == [NUL] + y;
      assert a[1..] == x && b[1..] == y;
      assert a <= b <==> a[1..] <= b[1..];
    } else if p == [] || q == [] {
      assert a[0] != b[0];
    } else {
      assert a[1..] == p[1..] + [NUL] + x && b[1..] == q[1..] + [NUL] + y;
      SamePart(p[1..], x, q[1..], y);
      assert p == [p[0]] + p[1..] && q == [q[0]] + q[1..];
      assert a == [p[0]] + a[1..] && b == [q[0]] + b[1..];
      assert a <= b <==> p[0] == q[0] && a[1..] <= b[1..];
    }
  }

  lemma {:induction false} JoinPrefix(a: seq<string>, b: seq<string>)
    requires AllNulFree(a) && AllNulFree(b)
    ensures Join(a) <= Join(b) <==> a <= b
  {
    if a != [] && b != [] {
      SamePart(a[0], Join(a[1..]), b[0], Join(b[1..]));
      JoinPrefix(a[1..], b[1..]);
      assert a == [a[0]] + a[1..] && b == [b[0]] + b[1..];
      assert a <= b <==> a[0] == b[0] && a[1..] <= b[1..];
    }
  }

  lemma {:induction false} JoinSplitAt(a: seq<string>, b: seq<string>)
    ensures Join(a + b) == Join(a) + Join(b)
  {
    if a == [] {
      assert a + b == b;
    } else {
      assert (a + b)[1..] == a[1..] + b;
      JoinSplitAt(a[1..], b);
    }
  }

  /** A partial composite key query selects the key of (t', a') exactly when t' is the object
      type asked for, a' extends the attributes asked for, and the next attribute, if there is
      one, does not begin with U+10FFFF. */
  lemma PartialQueryIsExact(t: string, a: seq<string>, t': string, a': seq<string>)
    requires NulFree(t) && NulFree(t') && AllNulFree(a) && AllNulFree(a')
    requires forall i | 0 <= i < |a'| :: a'[i] != ""
    ensures InRange(KeyOf(t, a), KeyOf(t, a) + [MAX], KeyOf(t', a')) <==>
            t' == t && a <= a' && (|a'| == |a| || a'[|a|][0] != MAX)
  {
    var p, q := [t] + a, [t'] + a';
    var full, key := KeyOf(t, a), KeyOf(t', a');
    assert full == [NUL] + Join(p) && key == [NUL] + Join(q);
    PrefixRange(full, key);
    JoinPrefix(p, q);
    assert full <= key <==> Join(p) <= Join(q);
    assert p <= q <==> t == t' && a <= a';
    if p <= q {
      var rest := q[|p|..];
      assert q == p + rest;
      JoinSplitAt(p, rest);
      assert key == full + Join(rest);
      if rest != [] {
        assert rest[0] == a'[|a|] && rest[0] != "";
        assert key[|full|] == Join(rest)[0] == rest[0][0];
      }
    }
  }

  /** A simple key never turns up in such a query: it does not begin with NUL. */
  lemma NoSimpleKeys(t: string, a: seq<string>, key: string)
    requires InRange(KeyOf(t, a), KeyOf(t, a) + [MAX], key)
    ensures key != "" && key[0] == NUL
  {
    PrefixRange(KeyOf(t, a), key);
  }
}
