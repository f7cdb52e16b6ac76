/** The flattened key of a persistent value: owner type, owner id and key joined by "~=~". */
module PvalKey {
  import opened Options

  const SEPARATOR := "~=~"

  function MakeFullKey(ownerType: string, ownerId: string, key: string): string {
    ownerType + SEPARATOR + ownerId + SEPARATOR + key
  }

  predicate SeparatorAt(s: string, i: nat) {
    i + 3 <= |s| && s[i] == '~' && s[i + 1] == '=' && s[i + 2] == '~'
  }

  /** std::string::find of the separator, from a position on. */
  function Find(s: string, from: nat): (r: Option<nat>)
    ensures r.Some? ==> from <= r.value && SeparatorAt(s, r.value)
    ensures forall i: nat :: from <= i && (r.Some? ==> i < r.value) ==> !SeparatorAt(s, i)
    decreases |s| - from
  {
    if from + 3 > |s| then None
    else if SeparatorAt(s, from) then Some(from)
    else Find(s, from + 1)
  }

  datatype Row = Row(ownerType: string, ownerId: string, key: string)

  /** The parse at the head of both branches of saveDirtyPvals. */
  function Split(s: string): Option<Row> {
    match Find(s, 0)
    case None => None
    case Some(pos1) =>
      match Find(s, pos1 + 3)
      case None => None
      case Some(pos2) => Some(Row(s[..pos1], s[pos1 + 3..pos2], s[pos2 + 3..]))
  }

  /** The part neither holds a separator nor makes one with the separator that follows it. */
  predicate Clean(part: string) {
    && (forall i: nat :: i < |part| ==> !SeparatorAt(part, i))
    && !(|part| >= 2 && part[|part| - 2] == '~' && part[|part| - 1] == '=')
  }

  lemma JoinedAt(part: string, rest: string, i: nat)
    requires i < |part|
    ensures SeparatorAt(part + SEPARATOR + rest, i) <==>
            SeparatorAt(part, i) || (i == |part| - 2 && part[i] == '~' && part[i + 1] == '=')
  {
  }

  /** The first separator found is the one put after the part just when the part is clean. */
  lemma FindsEndOfPart(part: string, rest: string)
    ensures var s := part + SEPARATOR + rest;
            Find(s, 0).Some? && Find(s, 0).value <= |part| && (Find(s, 0).value == |part| <==> Clean(part))
  {
    var s := part + SEPARATOR + rest;
    assert SeparatorAt(s, |part|);
    forall i: nat | i < |part| ensures SeparatorAt(s, i) <==>
        SeparatorAt(part, i) || (i == |part| - 2 && part[i] == '~' && part[i + 1] == '=')
    {
      JoinedAt(part, rest, i);
    }
  }

  lemma {:induction false} FindInSuffix(s: string, from: nat, at: nat)
    requires from <= at <= |s|
    ensures Find(s, at) == match Find(s[from..], at - from) case None => None case Some(i) => Some(i + from)
    decreases |s| - at
  {
    if at + 3 <= |s| {
      assert SeparatorAt(s, at) <==> SeparatorAt(s[from..], at - from);
      if !SeparatorAt(s, at) { FindInSuffix(s, from, at + 1); }
    }
  }

  /** Where the second separator is found, once the first was found after the owner type. */
  lemma FindsSecond(t: string, o: string, k: string)
    ensures var s, from := MakeFullKey(t, o, k), |t| + 3;
            Find(s, from).Some? && from <= Find(s, from).value <= from + |o|
            && (Find(s, from).value == from + |o| <==> Clean(o))
  {
    var s, rest := MakeFullKey(t, o, k), o + SEPARATOR + k;
    assert s[|t| + 3..] == rest;
    hide Clean;
    FindInSuffix(s, |t| + 3, |t| + 3);
    FindsEndOfPart(o, k);
  }

  lemma Slices(t: string, o: string, k: string)
    ensures var s := MakeFullKey(t, o, k);
            s[..|t|] == t && s[|t| + 3..|t| + 3 + |o|] == o && s[|t| + 3 + |o| + 3..] == k
  {
  }

  /** A flattened key always splits, into the parts it was made of exactly when the owner type
      and the owner id are clean; the key text may be anything. */
  lemma SplitIsExact(t: string, o: string, k: string)
    ensures Split(MakeFullKey(t, o, k)).Some?
    ensures Split(MakeFullKey(t, o, k)) == Some(Row(t, o, k)) <==> Clean(t) && Clean(o)
  {
    hide Clean;
    var s, rest := MakeFullKey(t, o, k), o + SEPARATOR + k;
    assert s == t + SEPARATOR + rest;
    FindsEndOfPart(t, rest);
    FindsSecond(t, o, k);
    Slices(t, o, k);
    var pos1 := Find(s, 0).value;
    if pos1 < |t| {
      var second := Find(s, |t| + 3).value;
      assert Find(s, pos1 + 3).Some?;
      assert |s[..pos1]| < |t|;
    }
  }

  lemma FullKeyIsInjective(a: Row, b: Row)
    requires Clean(a.ownerType) && Clean(a.ownerId) && Clean(b.ownerType) && Clean(b.ownerId)
    requires MakeFullKey(a.ownerType, a.ownerId, a.key) == MakeFullKey(b.ownerType, b.ownerId, b.key)
    ensures a == b
  {
    SplitIsExact(a.ownerType, a.ownerId, a.key);
    SplitIsExact(b.ownerType, b.ownerId, b.key);
  }

  /** Any unclean part makes two different owners share a flattened key with a third text. */
  lemma UncleanPartsCollide(t: string, o: string, k: string)
    requires !Clean(t) || !Clean(o)
    ensures exists r: Row :: r != Row(t, o, k) && MakeFullKey(r.ownerType, r.ownerId, r.key) == MakeFullKey(t, o, k)
  {
    hide Clean;
    SplitIsExact(t, o, k);
    var s := MakeFullKey(t, o, k);
    var r := Split(s).value;
    SplitRejoins(s);
    assert r != Row(t, o, k);
  }

  lemma SplitRejoins(s: string)
    requires Split(s).Some?
    ensures var r := Split(s).value; MakeFullKey(r.ownerType, r.ownerId, r.key) == s
  {
  }
}
