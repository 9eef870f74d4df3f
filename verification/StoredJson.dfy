/**
  What a payload column gives back: `JSON.stringify` on the way in, the parsed tree on the way out. The audit
  log hashes `canonicalize` of the payload instead, and the two serializers do not agree on everything.
 */
module StoredJson {
  import opened Texts
  import opened JsonText
  import opened CanonicalJson

  /** The tree that `JSON.stringify` prints; a function or undefined value is null here and dropped as a member. */
  function Stringified(v: Js): Value {
    match v
    case Undefined => VNull
    case Function => VNull
    case Null => VNull
    case NonFinite => VNull
    case Bool(b) => VBool(b)
    case Num(lexeme) => VNum(lexeme)
    case Str(s) => VStr(s)
    case Keyless(Braces) => VObj([])
    case Keyless(Time(text)) => VStr(text)
    case Keyless(NoTime) => VNull
    case Arr(elems) => VArr(seq(|elems|, i requires 0 <= i < |elems| => Stringified(elems[i])))
    case Obj(members) => VObj(StringifiedMembers(members))
  }

  function StringifiedMembers(members: seq<Entry<Js>>): seq<Entry<Value>> {
    if members == [] then []
    else if members[0].value.Undefined? || members[0].value.Function? then StringifiedMembers(members[1..])
    else [Entry(members[0].key, Stringified(members[0].value))] + StringifiedMembers(members[1..])
  }

  /** A parsed tree as a JavaScript value. */
  function AsJs(v: Value): Js {
    match v
    case VNull => Null
    case VBool(b) => Bool(b)
    case VNum(lexeme) => Num(lexeme)
    case VStr(s) => Str(s)
    case VArr(elems) => Arr(seq(|elems|, i requires 0 <= i < |elems| => AsJs(elems[i])))
    case VObj(members) => Obj(AsMembers(members))
  }

  function AsMembers(members: seq<Entry<Value>>): seq<Entry<Js>> {
    if members == [] then [] else [Entry(members[0].key, AsJs(members[0].value))] + AsMembers(members[1..])
  }

  function Restored(v: Js): Js {
    AsJs(Stringified(v))
  }

  // ---- The stored text ------------------------------------------------------------------------

  lemma {:induction false} StringifiedPrintable(v: Js)
    requires WellFormed(v)
    ensures Printable(Stringified(v))
  {
    match v
    case Arr(elems) =>
      forall i | 0 <= i < |elems| ensures Printable(Stringified(elems[i])) {
        StringifiedPrintable(elems[i]);
      }
    case Obj(members) =>
      StringifiedMembersOf(members);
      forall n <- StringifiedMembers(members) ensures Printable(n.value) {
        var m :| m in members && n == Entry(m.key, Stringified(m.value));
        StringifiedPrintable(m.value);
      }
    case _ =>
  }

  lemma StringifiedMembersOf(members: seq<Entry<Js>>)
    ensures forall n <- StringifiedMembers(members) ::
              exists m <- members ::
                !m.value.Undefined? && !m.value.Function? && n == Entry(m.key, Stringified(m.value))
  {
  }

  /** Parsing the stored text gives the restored value. */
  lemma StoredTextReadsBack(v: Js)
    requires WellFormed(v)
    ensures var p := ParseValue(Print(Stringified(v)));
            p.Parsed? && p.rest == [] && AsJs(p.value) == Restored(v)
  {
    StringifiedPrintable(v);
    ParserUndoesPrinter(Stringified(v));
  }

  // ---- When it hashes to the same text ----------------------------------------------------------

  /** No object has a function for a member, and no Date is in the tree. */
  predicate Restorable(v: Js) {
    match v
    case Keyless(json) => json.Braces?
    case Arr(elems) => forall e <- elems :: Restorable(e)
    case Obj(members) => forall m <- members :: !m.value.Function? && Restorable(m.value)
    case _ => true
  }

  function RestoredMembers(members: seq<Entry<Js>>): seq<Entry<Js>> {
    AsMembers(StringifiedMembers(members))
  }

  lemma RestoredMembersOf(members: seq<Entry<Js>>)
    ensures forall n <- RestoredMembers(members) ::
              !n.value.Undefined?
              && exists m <- members ::
                   !m.value.Undefined? && !m.value.Function? && n == Entry(m.key, Restored(m.value))
    ensures forall m <- members ::
              !m.value.Undefined? && !m.value.Function? ==> Entry(m.key, Restored(m.value)) in RestoredMembers(members)
  {
    if members != [] {
      RestoredMembersOf(members[1..]);
      if !members[0].value.Undefined? && !members[0].value.Function? {
        var n := Entry(members[0].key, Stringified(members[0].value));
        assert StringifiedMembers(members)[0] == n;
        assert StringifiedMembers(members)[1..] == StringifiedMembers(members[1..]);
        assert RestoredMembers(members) ==
               [Entry(n.key, Restored(members[0].value))] + RestoredMembers(members[1..]);
      }
    }
  }

  lemma {:induction false} RestoredMembersDistinct(members: seq<Entry<Js>>)
    requires DistinctKeys(members)
    ensures DistinctKeys(RestoredMembers(members))
  {
    if members != [] {
      DistinctTail(members);
      RestoredMembersDistinct(members[1..]);
      if !members[0].value.Undefined? && !members[0].value.Function? {
        RestoredMembersOf(members[1..]);
        var head, tail := Entry(members[0].key, Restored(members[0].value)), RestoredMembers(members[1..]);
        assert StringifiedMembers(members)[1..] == StringifiedMembers(members[1..]);
        assert RestoredMembers(members) == [head] + tail;
        forall j | 0 <= j < |tail| ensures tail[j].key != head.key {
          assert tail[j] in tail;
        }
      }
    }
  }

  lemma {:induction false} RestoredWellFormed(v: Js)
    requires WellFormed(v)
    ensures WellFormed(Restored(v))
  {
    match v
    case Arr(elems) =>
      forall i | 0 <= i < |elems| ensures WellFormed(Restored(elems[i])) {
        RestoredWellFormed(elems[i]);
      }
    case Obj(members) =>
      RestoredMembersDistinct(members);
      RestoredMembersOf(members);
      forall n <- RestoredMembers(members) ensures WellFormed(n.value) {
        var m :| m in members && n == Entry(m.key, Restored(m.value));
        RestoredWellFormed(m.value);
      }
    case _ =>
  }

  /** Where every kept member is restored as it was, so is the list. */
  lemma {:induction false} MembersRestored(members: seq<Entry<Js>>)
    requires forall m <- members :: !m.value.Function? && Norm(Restored(m.value)) == Norm(m.value)
    ensures NormMembers(RestoredMembers(members)) == NormMembers(members)
  {
    if members != [] {
      MembersRestored(members[1..]);
      if !members[0].value.Undefined? {
        assert StringifiedMembers(members)[1..] == StringifiedMembers(members[1..]);
        var head, tail := Entry(members[0].key, Restored(members[0].value)), RestoredMembers(members[1..]);
        assert RestoredMembers(members) == [head] + tail;
        assert ([head] + tail)[1..] == tail && !head.value.Undefined?;
      }
    }
  }

  /** Equal kept members mean that nothing was dropped and every value is the same. */
  lemma MemberKept(members: seq<Entry<Js>>, m: Entry<Js>)
    requires DistinctKeys(members) && m in members && !m.value.Undefined?
    requires Norm(Obj(RestoredMembers(members))) == Norm(Obj(members))
    ensures !m.value.Function? && Norm(Restored(m.value)) == Norm(m.value)
  {
    SortMembers(NormMembers(members));
    SortMembers(NormMembers(RestoredMembers(members)));
    NormMembersOf(members);
    NormMembersOf(RestoredMembers(members));
    RestoredMembersOf(members);
    var n := Entry(m.key, Norm(m.value));
    assert n in Sort(NormMembers(members)) && n in NormMembers(RestoredMembers(members));
    var r :| r in RestoredMembers(members) && n == Entry(r.key, Norm(r.value));
    var k :| k in members && !k.value.Function? && r == Entry(k.key, Restored(k.value));
    KeyDeterminesMember(members, m, k);
  }

  /** A payload reads back with the same canonical tree exactly when it holds no function member and no Date. */
  lemma {:induction false} RestoredExact(v: Js)
    requires WellFormed(v)
    ensures Norm(Restored(v)) == Norm(v) <==> Restorable(v)
  {
    match v
    case Arr(elems) =>
      forall i | 0 <= i < |elems| ensures Norm(Restored(elems[i])) == Norm(elems[i]) <==> Restorable(elems[i]) {
        RestoredExact(elems[i]);
      }
      ElementsRestored(elems);
    case Obj(members) =>
      forall m <- members ensures Norm(Restored(m.value)) == Norm(m.value) <==> Restorable(m.value) {
        RestoredExact(m.value);
      }
      ObjectRestored(members);
    case _ =>
  }

  lemma ElementsRestored(elems: seq<Js>)
    requires forall e <- elems :: Norm(Restored(e)) == Norm(e) <==> Restorable(e)
    ensures Norm(Restored(Arr(elems))) == Norm(Arr(elems)) <==> Restorable(Arr(elems))
  {
    var a, b := Norm(Restored(Arr(elems))).elems, Norm(Arr(elems)).elems;
    assert forall i | 0 <= i < |elems| ::
        a[i] == Norm(Restored(elems[i])) && b[i] == Norm(elems[i]) && elems[i] in elems;
    if a == b {
      forall e <- elems ensures Restorable(e) {
        var i :| 0 <= i < |elems| && elems[i] == e;
        assert a[i] == b[i];
      }
    }
  }

  lemma ObjectRestored(members: seq<Entry<Js>>)
    requires DistinctKeys(members)
    requires forall m <- members :: Norm(Restored(m.value)) == Norm(m.value) <==> Restorable(m.value)
    ensures Norm(Restored(Obj(members))) == Norm(Obj(members)) <==> Restorable(Obj(members))
  {
    assert Restored(Obj(members)) == Obj(RestoredMembers(members));
    if Norm(Restored(Obj(members))) == Norm(Obj(members)) {
      forall m <- members ensures !m.value.Function? && Restorable(m.value) {
        if !m.value.Undefined? {
          MemberKept(members, m);
        }
      }
    }
    if Restorable(Obj(members)) {
      MembersRestored(members);
    }
  }

  /** A function member is stored as nothing but hashed as null, a Date stored as its text but hashed as `{}`. */
  lemma StoredTextsDiffer(k: Text, text: Text)
    ensures Canonical(Restored(Obj([Entry(k, Function)]))) != Canonical(Obj([Entry(k, Function)]))
    ensures Canonical(Restored(Obj([Entry(k, Keyless(Time(text)))]))) != Canonical(Obj([Entry(k, Keyless(Time(text)))]))
  {
    var a, b := [Entry(k, Function)], [Entry(k, Keyless(Time(text)))];
    assert a[0] in a && b[0] in b;
    forall v | v in {Obj(a), Obj(b)} ensures Canonical(Restored(v)) != Canonical(v) {
      RestoredExact(v);
      RestoredWellFormed(v);
      CanonicalFaithful(Restored(v), v);
    }
  }
}
