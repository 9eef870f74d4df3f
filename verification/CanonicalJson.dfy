/**
  The deterministic serializer whose output the audit log hashes (`canonicalize`).

  Input trees are JavaScript values; the printed tree keeps keys sorted at every depth.
 */
module CanonicalJson {
  import opened Lexicographic
  import opened Texts
  import opened JsonText

  /** What `JSON.stringify` prints for a keyless object: braces, or a Date's time, null for an invalid one. */
  datatype KeylessJson = Braces | Time(text: Text) | NoTime

  /**
    A JavaScript value as the serializer sees it. `Keyless` is an object without own enumerable
    keys that is neither an array nor a plain object (a Date, a Map, a Set). `NonFinite` is NaN or an
    infinity. Members are listed in insertion order.
   */
  datatype Js =
    | Undefined
    | Function
    | Null
    | Bool(b: bool)
    | NonFinite
    | Num(lexeme: Text)
    | Str(s: Text)
    | Keyless(json: KeylessJson)
    | Arr(elems: seq<Js>)
    | Obj(members: seq<Entry<Js>>)

  /** Own keys are unique at every depth and numbers carry a number text. */
  ghost predicate WellFormed(v: Js) {
    match v
    case Num(lexeme) => IsNumber(lexeme)
    case Arr(elems) => forall e <- elems :: WellFormed(e)
    case Obj(members) => DistinctKeys(members) && forall m <- members :: WellFormed(m.value)
    case _ => true
  }

  /** The finite JSON trees: nothing JSON cannot express. */
  ghost predicate IsJson(v: Js) {
    match v
    case Undefined => false
    case Function => false
    case NonFinite => false
    case Keyless(_) => false
    case Arr(elems) => forall e <- elems :: IsJson(e)
    case Obj(members) => forall m <- members :: IsJson(m.value)
    case _ => true
  }

  // ---- The tree that gets printed -----------------------------------------------------------

  /** What the serializer keeps of a value: keys sorted, undefined members dropped. */
  function Norm(v: Js): Value {
    match v
    case Undefined => VNull
    case Function => VNull
    case Null => VNull
    case NonFinite => VNull
    case Bool(b) => VBool(b)
    case Num(lexeme) => VNum(lexeme)
    case Str(s) => VStr(s)
    case Keyless(_) => VObj([])
    case Arr(elems) => VArr(seq(|elems|, i requires 0 <= i < |elems| => Norm(elems[i])))
    case Obj(members) => VObj(Sort(NormMembers(members)))
  }

  function NormMembers(members: seq<Entry<Js>>): seq<Entry<Value>> {
    if members == [] then []
    else if members[0].value.Undefined? then NormMembers(members[1..])
    else [Entry(members[0].key, Norm(members[0].value))] + NormMembers(members[1..])
  }

  function Canonical(v: Js): Text {
    Print(Norm(v))
  }

  lemma NormMembersConcat(a: seq<Entry<Js>>, b: seq<Entry<Js>>)
    ensures NormMembers(a + b) == NormMembers(a) + NormMembers(b)
  {
    if a == [] {
      assert a + b == b;
    } else {
      assert (a + b)[1..] == a[1..] + b;
      NormMembersConcat(a[1..], b);
    }
  }

  /** Membership in the kept members, both ways. */
  lemma NormMembersOf(members: seq<Entry<Js>>)
    ensures forall m <- members :: !m.value.Undefined? ==> Entry(m.key, Norm(m.value)) in NormMembers(members)
    ensures forall n <- NormMembers(members) ::
              exists m <- members :: !m.value.Undefined? && n == Entry(m.key, Norm(m.value))
  {
  }

  lemma NormMembersDistinct(members: seq<Entry<Js>>)
    requires DistinctKeys(members)
    ensures DistinctKeys(NormMembers(members))
  {
    if members != [] {
      DistinctTail(members);
      NormMembersDistinct(members[1..]);
      NormMembersOf(members[1..]);
      var tail := NormMembers(members[1..]);
      forall j | 0 <= j < |tail| ensures tail[j].key != members[0].key {
        assert tail[j] in tail;
      }
    }
  }

  lemma NormMembersIncreasing(members: seq<Entry<Js>>)
    requires Increasing(members)
    ensures Increasing(NormMembers(members))
  {
    if members != [] {
      NormMembersIncreasing(members[1..]);
      NormMembersOf(members[1..]);
      var tail := NormMembers(members[1..]);
      forall j | 0 <= j < |tail| ensures Below(members[0].key, tail[j].key) {
        assert tail[j] in tail;
        var m :| m in members[1..] && tail[j].key == m.key;
        var i :| 0 <= i < |members[1..]| && members[1..][i] == m;
        assert members[i + 1] == m;
      }
    }
  }

  /** Sorting the keys first and then dropping members gives the same list as the other order. */
  lemma SortCommutes(members: seq<Entry<Js>>)
    requires DistinctKeys(members)
    ensures NormMembers(Sort(members)) == Sort(NormMembers(members))
  {
    SortMembers(members);
    SortIncreasing(members);
    NormMembersIncreasing(Sort(members));
    NormMembersDistinct(members);
    SortMembers(NormMembers(members));
    SortIncreasing(NormMembers(members));
    NormMembersOf(members);
    NormMembersOf(Sort(members));
    IncreasingUnique(NormMembers(Sort(members)), Sort(NormMembers(members)));
  }

  lemma {:induction false} NormIsPrintable(v: Js)
    requires WellFormed(v)
    ensures Printable(Norm(v))
  {
    match v
    case Arr(elems) =>
      forall i | 0 <= i < |elems| ensures Printable(Norm(elems[i])) {
        NormIsPrintable(elems[i]);
      }
    case Obj(members) =>
      SortMembers(NormMembers(members));
      NormMembersOf(members);
      forall n <- Sort(NormMembers(members)) ensures Printable(n.value) {
        var m :| m in members && n == Entry(m.key, Norm(m.value));
        NormIsPrintable(m.value);
      }
    case _ =>
  }

  // ---- The serializer itself ----------------------------------------------------------------

  function Printed(values: seq<Value>): seq<Text> {
    seq(|values|, i requires 0 <= i < |values| => Print(values[i]))
  }

  function PrintedMembers(members: seq<Entry<Value>>): seq<Text> {
    seq(|members|, i requires 0 <= i < |members| => PrintMember(members[i]))
  }

  lemma JoinElems(values: seq<Value>)
    ensures Join(COMMA, Printed(values)) == PrintElems(values)
  {
    if |values| > 1 {
      JoinElems(values[1..]);
      assert Printed(values)[1..] == Printed(values[1..]);
    }
  }

  lemma JoinMembers(members: seq<Entry<Value>>)
    ensures Join(COMMA, PrintedMembers(members)) == PrintMembers(members)
  {
    if |members| > 1 {
      JoinMembers(members[1..]);
      assert PrintedMembers(members)[1..] == PrintedMembers(members[1..]);
    }
  }

  method Canonicalize(v: Js) returns (t: Text)
    requires WellFormed(v)
    ensures t == Canonical(v)
    decreases v, 1
  {
    match v
    case Arr(_) =>
      var parts := ElementTexts(v);
      JoinElems(Norm(v).elems);
      t := [OPEN_BRACKET] + Join(COMMA, parts) + [CLOSE_BRACKET];
    case Obj(members) =>
      var sorted := Sort(members);
      SortMembers(members);
      var parts := MemberTexts(v, sorted);
      SortCommutes(members);
      JoinMembers(Norm(v).members);
      t := [OPEN_BRACE] + Join(COMMA, parts) + [CLOSE_BRACE];
    case Keyless(_) =>
      t := [OPEN_BRACE] + Join(COMMA, []) + [CLOSE_BRACE];
    case _ =>
      t := Print(Norm(v));
  }

  /** Array elements; an undefined one is printed as null. */
  method ElementTexts(v: Js) returns (parts: seq<Text>)
    requires WellFormed(v) && v.Arr?
    ensures parts == Printed(Norm(v).elems)
    decreases v, 0
  {
    parts := [];
    for i := 0 to |v.elems|
      invariant |parts| == i
      invariant forall j | 0 <= j < i :: parts[j] == Print(Norm(v.elems[j]))
    {
      var part := NULL_TEXT;
      if !v.elems[i].Undefined? {
        part := Canonicalize(v.elems[i]);
      }
      parts := parts + [part];
    }
  }

  lemma OneMoreMember(members: seq<Entry<Js>>, i: nat)
    requires i < |members|
    ensures PrintedMembers(NormMembers(members[..i + 1])) ==
            PrintedMembers(NormMembers(members[..i]))
            + if members[i].value.Undefined? then []
              else [PrintString(members[i].key) + [COLON] + Print(Norm(members[i].value))]
  {
    var before, m := NormMembers(members[..i]), members[i];
    assert members[..i + 1] == members[..i] + [m];
    NormMembersConcat(members[..i], [m]);
    if m.value.Undefined? {
      assert NormMembers([m]) == [] && before + [] == before;
    } else {
      NormSingleton(m.key, m.value);
      PrintedSnoc(before, Entry(m.key, Norm(m.value)));
    }
  }

  lemma PrintedSnoc(members: seq<Entry<Value>>, m: Entry<Value>)
    ensures PrintedMembers(members + [m]) == PrintedMembers(members) + [PrintMember(m)]
  {
  }

  /** The loop over the sorted keys; an undefined member is dropped. */
  method MemberTexts(v: Js, sorted: seq<Entry<Js>>) returns (parts: seq<Text>)
    requires WellFormed(v) && v.Obj? && forall m <- sorted :: m in v.members
    ensures parts == PrintedMembers(NormMembers(sorted))
    decreases v, 0
  {
    parts := [];
    for i := 0 to |sorted|
      invariant parts == PrintedMembers(NormMembers(sorted[..i]))
    {
      var m := sorted[i];
      assert m in v.members;
      OneMoreMember(sorted, i);
      if !m.value.Undefined? {
        var text := Canonicalize(m.value);
        parts := parts + [PrintString(m.key) + [COLON] + text];
      }
    }
    assert sorted[..|sorted|] == sorted;
  }

  // ---- What equal output means ---------------------------------------------------------------

  /** The parser of compact JSON recovers exactly the kept tree from the output. */
  lemma CanonicalParses(v: Js)
    requires WellFormed(v)
    ensures ParseValue(Canonical(v)) == Parsed(Norm(v), [])
    ensures WellFormedUtf16(Canonical(v))
  {
    NormIsPrintable(v);
    ParserUndoesPrinter(Norm(v));
    PrintIsWellFormed(Norm(v));
  }

  /** On every input, equal output is the same thing as an equal kept tree. */
  lemma CanonicalFaithful(a: Js, b: Js)
    requires WellFormed(a) && WellFormed(b)
    ensures Canonical(a) == Canonical(b) <==> Norm(a) == Norm(b)
  {
    CanonicalParses(a);
    CanonicalParses(b);
  }

  /** The same tree, except that objects may list their members in another order, at any depth. */
  ghost predicate SameUpToOrder(a: Js, b: Js)
    decreases a
  {
    match (a, b)
    case (Arr(x), Arr(y)) => |x| == |y| && forall i | 0 <= i < |x| :: SameUpToOrder(x[i], y[i])
    case (Obj(x), Obj(y)) =>
      && (forall e <- x :: HasKey(y, e.key) && SameUpToOrder(e.value, Get(y, e.key)))
      && (forall f <- y :: HasKey(x, f.key))
    case (_, _) => a == b
  }

  ghost predicate SameKept(e: Entry<Js>, f: Entry<Js>) {
    e.key == f.key && Norm(e.value) == Norm(f.value) && (e.value.Undefined? <==> f.value.Undefined?)
  }

  lemma KeptCarriesOver(x: seq<Entry<Js>>, y: seq<Entry<Js>>)
    requires forall e <- x :: exists f <- y :: SameKept(e, f)
    ensures forall n <- NormMembers(x) :: n in NormMembers(y)
  {
    NormMembersOf(x);
    NormMembersOf(y);
    forall n <- NormMembers(x) ensures n in NormMembers(y) {
      var e :| e in x && !e.value.Undefined? && n == Entry(e.key, Norm(e.value));
      var f :| f in y && SameKept(e, f);
    }
  }

  lemma SameKeptMembers(x: seq<Entry<Js>>, y: seq<Entry<Js>>)
    requires DistinctKeys(x) && DistinctKeys(y)
    requires forall e <- x :: exists f <- y :: SameKept(e, f)
    requires forall f <- y :: exists e <- x :: SameKept(f, e)
    ensures Norm(Obj(x)) == Norm(Obj(y))
  {
    KeptCarriesOver(x, y);
    KeptCarriesOver(y, x);
    NormMembersDistinct(x);
    NormMembersDistinct(y);
    SortForgetsOrder(NormMembers(x), NormMembers(y));
  }

  lemma {:induction false} OrderDoesNotMatter(a: Js, b: Js)
    requires WellFormed(a) && WellFormed(b) && SameUpToOrder(a, b)
    ensures Norm(a) == Norm(b) && (a.Undefined? <==> b.Undefined?)
    decreases a
  {
    match (a, b)
    case (Arr(x), Arr(y)) =>
      forall i | 0 <= i < |x| ensures Norm(x[i]) == Norm(y[i]) {
        OrderDoesNotMatter(x[i], y[i]);
      }
    case (Obj(x), Obj(y)) =>
      forall e <- x ensures Entry(e.key, Get(y, e.key)) in y && SameKept(e, Entry(e.key, Get(y, e.key))) {
        OrderDoesNotMatter(e.value, Get(y, e.key));
      }
      forall f <- y ensures exists e <- x :: SameKept(f, e) {
        var e := Entry(f.key, Get(x, f.key));
        GetIsUnique(y, f);
        assert SameKept(e, f) && e in x;
      }
      SameKeptMembers(x, y);
    case (_, _) =>
  }

  lemma {:induction false} EqualTreesAreTheSame(a: Js, b: Js)
    requires WellFormed(a) && WellFormed(b) && IsJson(a) && IsJson(b) && Norm(a) == Norm(b)
    ensures SameUpToOrder(a, b)
    decreases a
  {
    match (a, b)
    case (Arr(x), Arr(y)) =>
      forall i | 0 <= i < |x| ensures SameUpToOrder(x[i], y[i]) {
        assert Norm(a).elems[i] == Norm(x[i]) && Norm(b).elems[i] == Norm(y[i]);
        EqualTreesAreTheSame(x[i], y[i]);
      }
    case (Obj(x), Obj(y)) =>
      forall e <- x ensures HasKey(y, e.key) && SameUpToOrder(e.value, Get(y, e.key)) {
        var f := KeptPartner(x, y, e);
        GetIsUnique(y, f);
        EqualTreesAreTheSame(e.value, f.value);
      }
      forall f <- y ensures HasKey(x, f.key) {
        var e := KeptPartner(y, x, f);
      }
    case (_, _) =>
  }

  lemma KeptPartner(x: seq<Entry<Js>>, y: seq<Entry<Js>>, e: Entry<Js>) returns (f: Entry<Js>)
    requires IsJson(Obj(x)) && Norm(Obj(x)) == Norm(Obj(y)) && e in x
    ensures f in y && f.key == e.key && Norm(f.value) == Norm(e.value)
  {
    SortMembers(NormMembers(x));
    SortMembers(NormMembers(y));
    NormMembersOf(x);
    NormMembersOf(y);
    var n := Entry(e.key, Norm(e.value));
    assert n in NormMembers(x) && n in Sort(NormMembers(x)) && n in NormMembers(y);
    f :| f in y && n == Entry(f.key, Norm(f.value));
  }

  /**
    Canonical serialization of finite JSON trees: two trees print alike exactly when they are the same
    tree up to the order in which object members were inserted, at every depth.
   */
  lemma CanonicalExact(a: Js, b: Js)
    requires WellFormed(a) && WellFormed(b) && IsJson(a) && IsJson(b)
    ensures Canonical(a) == Canonical(b) <==> SameUpToOrder(a, b)
  {
    CanonicalFaithful(a, b);
    if Norm(a) == Norm(b) {
      EqualTreesAreTheSame(a, b);
    }
    if SameUpToOrder(a, b) {
      OrderDoesNotMatter(a, b);
    }
  }

  lemma NormSingleton(k: Text, v: Js)
    requires !v.Undefined?
    ensures NormMembers([Entry(k, v)]) == [Entry(k, Norm(v))]
  {
  }

  lemma SameLeaf(k: Text, v: Js, w: Js)
    requires !v.Undefined? && !w.Undefined? && Norm(v) == Norm(w)
    ensures Canonical(Obj([Entry(k, v)])) == Canonical(Obj([Entry(k, w)]))
  {
    NormSingleton(k, v);
    NormSingleton(k, w);
  }

  /**
    Outside the finite JSON trees the output forgets: a function member prints as null (it is not
    dropped), NaN prints as null, and a Date prints as an empty object.
   */
  lemma LeavesThatCollide(k: Text, json: KeylessJson)
    ensures Canonical(Obj([Entry(k, Function)])) == Canonical(Obj([Entry(k, Null)]))
    ensures Canonical(Obj([Entry(k, NonFinite)])) == Canonical(Obj([Entry(k, Null)]))
    ensures Canonical(Obj([Entry(k, Keyless(json))])) == Canonical(Obj([Entry(k, Obj([]))]))
    ensures Canonical(Obj([Entry(k, Undefined)])) == Canonical(Obj([]))
  {
    var dropped := [Entry(k, Undefined)];
    assert dropped[0].value.Undefined? && NormMembers(dropped) == NormMembers(dropped[1..]) == [];
    SameLeaf(k, Function, Null);
    SameLeaf(k, NonFinite, Null);
    SameLeaf(k, Keyless(json), Obj([]));
  }
}
