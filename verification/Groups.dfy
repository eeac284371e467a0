/** Group memberships on an ID card: the in-place update from server-provided
    records, and re-signing of the card. Parsing, verification and signing are
    parameters. */
module Groups {
  import opened Common

  const VALID: Str := ['v' as int, 'a' as int, 'l' as int, 'i' as int, 'd' as int]

  datatype Membership = Membership(
    subject: Option<Bytes>, key: Bytes, status: Str, issued: int, info: Option<map<Str, Str>>,
    signKey: Option<Bytes>, signature: Option<Bytes>)

  type Memberships = Option<seq<Membership>>

  datatype Error = Malformed | Unverified | SigningFailed

  datatype Authority = Authority(parse: Bytes -> Option<Membership>, verify: Membership -> bool)

  // ----- The list as a map --------------------------------------------------

  function List(groups: Memberships): seq<Membership> {
    if groups.None? then [] else groups.value
  }

  // The entry found for a key is the first one in the list.
  function AsMap(list: seq<Membership>): map<Bytes, Membership> {
    if list == [] then map[] else AsMap(list[1..])[list[0].key := list[0]]
  }

  predicate DistinctKeys(list: seq<Membership>) {
    forall i, j :: 0 <= i < j < |list| ==> list[i].key != list[j].key
  }

  // ----- One record on the list ---------------------------------------------

  function Remove(list: seq<Membership>, key: Bytes): seq<Membership> {
    if list == [] then []
    else (if list[0].key != key then [list[0]] else []) + Remove(list[1..], key)
  }

  // Replaces the first entry with this key, or appends.
  function Put(list: seq<Membership>, m: Membership): seq<Membership> {
    if list == [] then [m]
    else if list[0].key == m.key then [m] + list[1..]
    else [list[0]] + Put(list[1..], m)
  }

  function Apply(groups: Memberships, m: Membership): Memberships {
    if m.status == VALID then Some(Put(List(groups), m.(subject := None)))
    else Some(Remove(List(groups), m.key))
  }

  lemma {:induction false} AsMapRemove(list: seq<Membership>, key: Bytes)
    ensures AsMap(Remove(list, key)) == AsMap(list) - {key}
  {
    if list != [] {
      AsMapRemove(list[1..], key);
      var rest := Remove(list[1..], key);
      if list[0].key != key {
        assert Remove(list, key) == [list[0]] + rest;
        assert ([list[0]] + rest)[1..] == rest;
      } else {
        assert Remove(list, key) == rest;
      }
    }
  }

  lemma {:induction false} AsMapPut(list: seq<Membership>, m: Membership)
    ensures AsMap(Put(list, m)) == AsMap(list)[m.key := m]
  {
    if list != [] {
      if list[0].key == m.key {
        assert ([m] + list[1..])[1..] == list[1..];
      } else {
        AsMapPut(list[1..], m);
        assert ([list[0]] + Put(list[1..], m))[1..] == Put(list[1..], m);
      }
    }
  }

  lemma {:induction false} KeysOfMap(list: seq<Membership>)
    ensures AsMap(list).Keys == set m | m in list :: m.key
  {
    if list != [] {
      KeysOfMap(list[1..]);
      assert list == [list[0]] + list[1..];
    }
  }

  // Distinct keys means the list holds exactly the map's entries.
  lemma {:induction false} DistinctRecursive(list: seq<Membership>)
    requires list != []
    ensures DistinctKeys(list) <==> DistinctKeys(list[1..]) && list[0].key !in AsMap(list[1..])
  {
    KeysOfMap(list[1..]);
    if list[0].key !in AsMap(list[1..]) && DistinctKeys(list[1..]) {
      forall i, j | 0 <= i < j < |list| ensures list[i].key != list[j].key {
        assert list[j] == list[1..][j - 1] && list[1..][j - 1] in list[1..];
        if i > 0 {
          assert list[i] == list[1..][i - 1];
        }
      }
    }
  }

  lemma {:induction false} DistinctRemove(list: seq<Membership>, key: Bytes)
    requires DistinctKeys(list)
    ensures DistinctKeys(Remove(list, key))
  {
    if list != [] {
      DistinctRecursive(list);
      DistinctRemove(list[1..], key);
      AsMapRemove(list[1..], key);
      if list[0].key != key {
        assert ([list[0]] + Remove(list[1..], key))[1..] == Remove(list[1..], key);
        DistinctRecursive([list[0]] + Remove(list[1..], key));
      }
    }
  }

  lemma {:induction false} DistinctPut(list: seq<Membership>, m: Membership)
    requires DistinctKeys(list)
    ensures DistinctKeys(Put(list, m))
  {
    if list != [] {
      DistinctRecursive(list);
      var rest := if list[0].key == m.key then list[1..] else Put(list[1..], m);
      assert Put(list, m)[1..] == rest;
      if list[0].key != m.key {
        DistinctPut(list[1..], m);
        AsMapPut(list[1..], m);
      }
      DistinctRecursive(Put(list, m));
    }
  }

  // ----- A batch of records -------------------------------------------------

  // What becomes of one record: an error, nothing, or a change to apply.
  function Examine(auth: Authority, selfKey: Bytes, buf: Bytes): Result<Option<Membership>, Error> {
    var m := auth.parse(buf);
    if m.None? then Err(Malformed)
    else if m.value.subject != Some(selfKey) then Ok(None)
    else if !auth.verify(m.value) then Err(Unverified)
    else Ok(m)
  }

  // A record for this card that its issuer signed.
  predicate Binding(auth: Authority, selfKey: Bytes, buf: Bytes, m: Membership) {
    auth.parse(buf) == Some(m) && m.subject == Some(selfKey) && auth.verify(m)
  }

  predicate Acceptable(auth: Authority, selfKey: Bytes, buf: Bytes) {
    auth.parse(buf).Some? && (auth.parse(buf).value.subject == Some(selfKey) ==> auth.verify(auth.parse(buf).value))
  }

  lemma ExamineExactly(auth: Authority, selfKey: Bytes, buf: Bytes)
    ensures Examine(auth, selfKey, buf).Ok? <==> Acceptable(auth, selfKey, buf)
    ensures Examine(auth, selfKey, buf) == Err(Malformed) <==> auth.parse(buf).None?
    ensures forall m :: Examine(auth, selfKey, buf) == Ok(Some(m)) <==> Binding(auth, selfKey, buf, m)
  {
  }

  // How many records are processed before the first one rejected.
  function Accepted(auth: Authority, selfKey: Bytes, data: seq<Bytes>): (n: nat)
    ensures n <= |data|
    ensures forall i :: 0 <= i < n ==> Examine(auth, selfKey, data[i]).Ok?
    ensures n < |data| ==> Examine(auth, selfKey, data[n]).Err?
  {
    if data == [] || Examine(auth, selfKey, data[0]).Err? then 0
    else 1 + Accepted(auth, selfKey, data[1..])
  }

  function Fold(auth: Authority, selfKey: Bytes, groups: Memberships, data: seq<Bytes>): Memberships {
    if data == [] then groups
    else
      var before := Fold(auth, selfKey, groups, data[..|data| - 1]);
      match Examine(auth, selfKey, data[|data| - 1])
      case Ok(Some(m)) => Apply(before, m)
      case _ => before
  }

  // The same batch on a plain map: put if valid, remove otherwise.
  function MapFold(auth: Authority, selfKey: Bytes, groups: map<Bytes, Membership>, data: seq<Bytes>)
    : map<Bytes, Membership>
  {
    if data == [] then groups
    else
      var before := MapFold(auth, selfKey, groups, data[..|data| - 1]);
      match Examine(auth, selfKey, data[|data| - 1])
      case Ok(Some(m)) => if m.status == VALID then before[m.key := m.(subject := None)] else before - {m.key}
      case _ => before
  }

  // The list, viewed as a map, follows the plain map; and its keys stay distinct.
  lemma {:induction false} FoldRefinesMap(auth: Authority, selfKey: Bytes, groups: Memberships, data: seq<Bytes>)
    ensures AsMap(List(Fold(auth, selfKey, groups, data)))
         == MapFold(auth, selfKey, AsMap(List(groups)), data)
    ensures DistinctKeys(List(groups)) ==> DistinctKeys(List(Fold(auth, selfKey, groups, data)))
  {
    if data != [] {
      var front := data[..|data| - 1];
      FoldRefinesMap(auth, selfKey, groups, front);
      var before := List(Fold(auth, selfKey, groups, front));
      match Examine(auth, selfKey, data[|data| - 1]) {
        case Ok(Some(m)) =>
          if m.status == VALID {
            AsMapPut(before, m.(subject := None));
            if DistinctKeys(before) {
              DistinctPut(before, m.(subject := None));
            }
          } else {
            AsMapRemove(before, m.key);
            if DistinctKeys(before) {
              DistinctRemove(before, m.key);
            }
          }
        case _ =>
      }
    }
  }

  // ----- What a batch comes to ----------------------------------------------

  // The last record about a key that applies to the card, if any.
  function LastAbout(auth: Authority, selfKey: Bytes, data: seq<Bytes>, key: Bytes): Option<Membership> {
    if data == [] then None
    else
      match Examine(auth, selfKey, data[|data| - 1])
      case Ok(Some(m)) => if m.key == key then Some(m) else LastAbout(auth, selfKey, data[..|data| - 1], key)
      case _ => LastAbout(auth, selfKey, data[..|data| - 1], key)
  }

  // It alone decides whether the key is held, and with what.
  lemma {:induction false} LastDecides(auth: Authority, selfKey: Bytes, groups: map<Bytes, Membership>,
                                       data: seq<Bytes>, key: Bytes)
    ensures var last, held := LastAbout(auth, selfKey, data, key), MapFold(auth, selfKey, groups, data);
            && (key in held <==> if last.Some? then last.value.status == VALID else key in groups)
            && (key in held ==> held[key] == if last.Some? then last.value.(subject := None) else groups[key])
  {
    hide Examine;
    if data != [] {
      LastDecides(auth, selfKey, groups, data[..|data| - 1], key);
    }
  }

  // For every key, the last record about it asks for what the list already holds.
  ghost predicate Agrees(auth: Authority, selfKey: Bytes, list: seq<Membership>, data: seq<Bytes>) {
    forall key ::
      match LastAbout(auth, selfKey, data, key)
      case None => true
      case Some(m) =>
        if m.status == VALID then key in AsMap(list) && AsMap(list)[key] == m.(subject := None)
        else key !in AsMap(list)
  }

  lemma AgreesExactly(auth: Authority, selfKey: Bytes, list: seq<Membership>, data: seq<Bytes>)
    ensures Agrees(auth, selfKey, list, data) <==> MapFold(auth, selfKey, AsMap(list), data) == AsMap(list)
  {
    hide MapFold, LastAbout, AsMap;
    var before, after := AsMap(list), MapFold(auth, selfKey, AsMap(list), data);
    forall key
      ensures var last := LastAbout(auth, selfKey, data, key);
              && (key in after <==> if last.Some? then last.value.status == VALID else key in before)
              && (key in after ==> after[key] == if last.Some? then last.value.(subject := None) else before[key])
    {
      LastDecides(auth, selfKey, before, data, key);
    }
  }

  // Every membership on the card was there before, or is a record of the batch
  // that was for this card, verified and valid.
  lemma {:induction false} StoredWasVerified(auth: Authority, selfKey: Bytes, groups: Memberships, data: seq<Bytes>,
                                             m: Membership)
    requires m in List(Fold(auth, selfKey, groups, data))
    ensures m in List(groups) || Granted(auth, selfKey, data, m)
  {
    hide Examine, Put, Remove;
    if data != [] {
      var front, last := data[..|data| - 1], data[|data| - 1];
      var before := List(Fold(auth, selfKey, groups, front));
      if m in before {
        StoredWasVerified(auth, selfKey, groups, front, m);
        if i, p :| 0 <= i < |front| && Grants(auth, selfKey, front[i], p, m) {
          assert Grants(auth, selfKey, data[i], p, m);
        }
      } else {
        ExamineExactly(auth, selfKey, last);
        match Examine(auth, selfKey, last) {
          case Ok(Some(p)) =>
            PutSubset(before, p.(subject := None));
            RemoveSubset(before, p.key);
            assert Grants(auth, selfKey, data[|data| - 1], p, m);
          case _ =>
        }
      }
    }
  }

  predicate Grants(auth: Authority, selfKey: Bytes, buf: Bytes, p: Membership, m: Membership) {
    Binding(auth, selfKey, buf, p) && p.status == VALID && m == p.(subject := None)
  }

  ghost predicate Granted(auth: Authority, selfKey: Bytes, data: seq<Bytes>, m: Membership) {
    exists i, p :: 0 <= i < |data| && Grants(auth, selfKey, data[i], p, m)
  }

  lemma {:induction false} PutSubset(list: seq<Membership>, m: Membership)
    ensures forall x :: x in Put(list, m) ==> x in list || x == m
  {
    if list != [] {
      PutSubset(list[1..], m);
    }
  }

  // The last verified record for this card about its key decides, whatever else
  // the batch holds: the membership is held as recorded if valid, and not at all
  // if not.
  lemma {:induction false} LastRecordDecides(auth: Authority, selfKey: Bytes, groups: Memberships, data: seq<Bytes>,
                                             i: nat, m: Membership)
    requires i < |data| && Binding(auth, selfKey, data[i], m)
    requires forall j, p :: i < j < |data| && Binding(auth, selfKey, data[j], p) ==> p.key != m.key
    ensures var held := AsMap(List(Fold(auth, selfKey, groups, data)));
            && (m.key in held <==> m.status == VALID)
            && (m.key in held ==> held[m.key] == m.(subject := None))
  {
    hide Examine, Fold, AsMap, Put, Remove;
    FoldRefinesMap(auth, selfKey, groups, data);
    LastDecides(auth, selfKey, AsMap(List(groups)), data, m.key);
    LastAboutIs(auth, selfKey, data, i, m);
  }

  lemma {:induction false} LastAboutIs(auth: Authority, selfKey: Bytes, data: seq<Bytes>, i: nat, m: Membership)
    requires i < |data| && Binding(auth, selfKey, data[i], m)
    requires forall j, p :: i < j < |data| && Binding(auth, selfKey, data[j], p) ==> p.key != m.key
    ensures LastAbout(auth, selfKey, data, m.key) == Some(m)
  {
    hide Examine, Binding;
    ExamineExactly(auth, selfKey, data[|data| - 1]);
    if i < |data| - 1 {
      var front := data[..|data| - 1];
      forall j, p | i < j < |front| && Binding(auth, selfKey, front[j], p) ensures p.key != m.key {
        assert front[j] == data[j];
      }
      LastAboutIs(auth, selfKey, front, i, m);
    }
  }

  // A batch is accepted whole if and only if every record parses and every one
  // for this card verifies; otherwise up to the first that does not.
  lemma AcceptedExactly(auth: Authority, selfKey: Bytes, data: seq<Bytes>)
    ensures var n := Accepted(auth, selfKey, data);
            && (forall i :: 0 <= i < n ==> Acceptable(auth, selfKey, data[i]))
            && (n < |data| ==> !Acceptable(auth, selfKey, data[n]))
            && (n == |data| <==> forall i :: 0 <= i < |data| ==> Acceptable(auth, selfKey, data[i]))
  {
    hide Examine, Acceptable, Accepted;
    forall i | 0 <= i < |data| ensures Examine(auth, selfKey, data[i]).Ok? <==> Acceptable(auth, selfKey, data[i]) {
      ExamineExactly(auth, selfKey, data[i]);
    }
  }

  // ----- The order of the list ----------------------------------------------

  function IndexOf(list: seq<Membership>, key: Bytes): (i: nat)
    ensures i <= |list| && (forall j :: 0 <= j < i ==> list[j].key != key)
    ensures i < |list| ==> list[i].key == key
  {
    if list == [] || list[0].key == key then 0 else 1 + IndexOf(list[1..], key)
  }

  // Whether the key is held after the batch.
  predicate Holds(auth: Authority, selfKey: Bytes, list: seq<Membership>, data: seq<Bytes>, key: Bytes) {
    match LastAbout(auth, selfKey, data, key)
    case Some(m) => m.status == VALID
    case None => key in AsMap(list)
  }

  // When a key took its place: its position on the list before the batch, or
  // beyond all of those the record that added it (again).
  function PlacedAt(auth: Authority, selfKey: Bytes, list: seq<Membership>, data: seq<Bytes>, key: Bytes): nat {
    if data == [] then IndexOf(list, key)
    else
      var front := data[..|data| - 1];
      match Examine(auth, selfKey, data[|data| - 1])
      case Ok(Some(m)) =>
        if m.key == key && m.status == VALID && !Holds(auth, selfKey, list, front, key) then |list| + |front|
        else PlacedAt(auth, selfKey, list, front, key)
      case _ => PlacedAt(auth, selfKey, list, front, key)
  }

  ghost predicate Ordered(list: seq<Membership>, place: Bytes -> nat) {
    forall i, j :: 0 <= i < j < |list| ==> place(list[i].key) < place(list[j].key)
  }

  predicate Under(list: seq<Membership>, place: Bytes -> nat, n: nat) {
    forall i :: 0 <= i < |list| ==> place(list[i].key) < n
  }

  function Places(auth: Authority, selfKey: Bytes, list: seq<Membership>, data: seq<Bytes>): Bytes -> nat {
    key => PlacedAt(auth, selfKey, list, data, key)
  }

  lemma {:induction false} RemoveSubset(list: seq<Membership>, key: Bytes)
    ensures forall m :: m in Remove(list, key) <==> m in list && m.key != key
  {
    if list != [] {
      RemoveSubset(list[1..], key);
      assert list == [list[0]] + list[1..];
    }
  }

  lemma OrderedSplit(list: seq<Membership>, place: Bytes -> nat, n: nat)
    requires list != [] && Ordered(list, place) && Under(list, place, n)
    ensures Ordered(list[1..], place) && Under(list[1..], place, n) && place(list[0].key) < n
    ensures forall m :: m in list[1..] ==> place(list[0].key) < place(m.key)
  {
    var tail := list[1..];
    forall i, j | 0 <= i < j < |tail| ensures place(tail[i].key) < place(tail[j].key) {
      assert tail[i] == list[i + 1] && tail[j] == list[j + 1];
    }
    forall m | m in tail ensures place(list[0].key) < place(m.key) {
      var j :| 0 <= j < |tail| && tail[j] == m;
      assert list[j + 1] == m;
    }
  }

  lemma OrderedJoin(head: Membership, rest: seq<Membership>, place: Bytes -> nat, n: nat)
    requires Ordered(rest, place) && Under(rest, place, n) && place(head.key) < n
    requires forall m :: m in rest ==> place(head.key) < place(m.key)
    ensures Ordered([head] + rest, place) && Under([head] + rest, place, n)
  {
    var list := [head] + rest;
    forall i, j | 0 <= i < j < |list| ensures place(list[i].key) < place(list[j].key) {
      assert list[j] == rest[j - 1] && rest[j - 1] in rest;
      if i > 0 {
        assert list[i] == rest[i - 1];
      }
    }
  }

  lemma RemoveStep(list: seq<Membership>, key: Bytes)
    requires list != []
    ensures Remove(list, key)
         == if list[0].key == key then Remove(list[1..], key) else [list[0]] + Remove(list[1..], key)
  {
    assert [] + Remove(list[1..], key) == Remove(list[1..], key);
  }

  lemma {:induction false} RemoveOrdered(list: seq<Membership>, key: Bytes, place: Bytes -> nat, n: nat)
    requires Ordered(list, place) && Under(list, place, n)
    ensures Ordered(Remove(list, key), place) && Under(Remove(list, key), place, n)
  {
    if list != [] {
      hide Ordered, Under, Remove;
      OrderedSplit(list, place, n);
      RemoveStep(list, key);
      RemoveOrdered(list[1..], key, place, n);
      if list[0].key != key {
        RemoveSubset(list[1..], key);
        OrderedJoin(list[0], Remove(list[1..], key), place, n);
      }
    }
  }

  lemma {:induction false} PutKeys(list: seq<Membership>, m: Membership)
    ensures m.key in AsMap(list) ==>
              |Put(list, m)| == |list| && forall i :: 0 <= i < |list| ==> Put(list, m)[i].key == list[i].key
    ensures m.key !in AsMap(list) ==> Put(list, m) == list + [m]
  {
    if list != [] {
      PutKeys(list[1..], m);
    }
  }

  // One record keeps the list in the order of its keys' places.
  lemma ApplyOrdered(auth: Authority, selfKey: Bytes, list: seq<Membership>, data: seq<Bytes>, before: seq<Membership>,
                     m: Membership)
    requires data != [] && Examine(auth, selfKey, data[|data| - 1]) == Ok(Some(m))
    requires var front := data[..|data| - 1];
             && Ordered(before, Places(auth, selfKey, list, front))
             && Under(before, Places(auth, selfKey, list, front), |list| + |front|)
             && (forall key :: key in AsMap(before) <==> Holds(auth, selfKey, list, front, key))
    ensures var after := if m.status == VALID then Put(before, m.(subject := None)) else Remove(before, m.key);
            && Ordered(after, Places(auth, selfKey, list, data))
            && Under(after, Places(auth, selfKey, list, data), |list| + |data|)
  {
    hide Examine, Holds, Put, Remove, IndexOf, AsMap;
    var front := data[..|data| - 1];
    var was, place := Places(auth, selfKey, list, front), Places(auth, selfKey, list, data);
    assert forall key :: key != m.key ==> place(key) == was(key);
    KeysOfMap(before);
    if m.status == VALID {
      PutKeys(before, m.(subject := None));
      assert m.key in AsMap(before) ==> place(m.key) == was(m.key);
    } else {
      assert forall key :: place(key) == was(key);
      RemoveOrdered(before, m.key, was, |list| + |front|);
    }
  }

  lemma {:induction false} FoldOrdered(auth: Authority, selfKey: Bytes, groups: Memberships, data: seq<Bytes>)
    requires DistinctKeys(List(groups))
    ensures var after, place := List(Fold(auth, selfKey, groups, data)), Places(auth, selfKey, List(groups), data);
            Ordered(after, place) && Under(after, place, |List(groups)| + |data|)
  {
    hide Examine, AsMap, Put, Remove, MapFold;
    var list := List(groups);
    if data == [] {
      forall i | 0 <= i < |list| ensures PlacedAt(auth, selfKey, list, data, list[i].key) == i {
        assert list[IndexOf(list, list[i].key)].key == list[i].key;
      }
    } else {
      var front := data[..|data| - 1];
      FoldOrdered(auth, selfKey, groups, front);
      FoldRefinesMap(auth, selfKey, groups, front);
      var before := List(Fold(auth, selfKey, groups, front));
      forall key ensures key in AsMap(before) <==> Holds(auth, selfKey, list, front, key) {
        LastDecides(auth, selfKey, AsMap(list), front, key);
      }
      match Examine(auth, selfKey, data[|data| - 1]) {
        case Ok(Some(m)) => ApplyOrdered(auth, selfKey, list, data, before, m);
        case _ =>
          assert forall key :: Places(auth, selfKey, list, data)(key) == Places(auth, selfKey, list, front)(key);
      }
    }
  }

  lemma EmptyMap(list: seq<Membership>)
    ensures AsMap(list) == map[] <==> list == []
  {
    assert list != [] ==> list[0].key in AsMap(list);
  }

  // A list is determined by its map and the order of its keys.
  lemma {:induction false} OrderedUnique(a: seq<Membership>, b: seq<Membership>, place: Bytes -> nat)
    requires Ordered(a, place) && Ordered(b, place) && AsMap(a) == AsMap(b)
    ensures a == b
  {
    KeysOfMap(a);
    KeysOfMap(b);
    if a == [] {
      EmptyMap(b);
    } else {
      assert a[0] in a && a[0].key in AsMap(b);
      var m :| m in b && m.key == a[0].key;
      assert b[0] in b && b[0].key in AsMap(a);
      var n :| n in a && n.key == b[0].key;
      assert a[0].key == b[0].key;
      TailMap(a, place);
      TailMap(b, place);
      OrderedUnique(a[1..], b[1..], place);
      assert a == [a[0]] + a[1..] && b == [b[0]] + b[1..];
    }
  }

  lemma HeadMap(head: Membership, rest: seq<Membership>)
    requires forall m :: m in rest ==> m.key != head.key
    ensures AsMap([head] + rest) - {head.key} == AsMap(rest)
    ensures head.key in AsMap([head] + rest) && AsMap([head] + rest)[head.key] == head
  {
    assert ([head] + rest)[1..] == rest;
    KeysOfMap(rest);
    hide AsMap;
    assert head.key !in AsMap(rest);
  }

  lemma OrderedTail(list: seq<Membership>, place: Bytes -> nat)
    requires list != [] && Ordered(list, place)
    ensures Ordered(list[1..], place) && forall m :: m in list[1..] ==> m.key != list[0].key
  {
    OrderedSplit(list, place, place(list[|list| - 1].key) + 1);
  }

  lemma TailMap(list: seq<Membership>, place: Bytes -> nat)
    requires list != [] && Ordered(list, place)
    ensures Ordered(list[1..], place) && AsMap(list[1..]) == AsMap(list) - {list[0].key}
    ensures list[0].key in AsMap(list) && AsMap(list)[list[0].key] == list[0]
  {
    OrderedTail(list, place);
    hide AsMap, Ordered;
    HeadMap(list[0], list[1..]);
    assert [list[0]] + list[1..] == list;
  }

  // The batch leaves the list as it was if and only if every key's last record
  // asks for what is held, and no key was removed and added back out of order.
  lemma UnchangedExactly(auth: Authority, selfKey: Bytes, groups: Memberships, data: seq<Bytes>)
    requires DistinctKeys(List(groups))
    ensures List(Fold(auth, selfKey, groups, data)) == List(groups) <==>
              && Agrees(auth, selfKey, List(groups), data)
              && Ordered(List(groups), Places(auth, selfKey, List(groups), data))
  {
    hide Fold, MapFold, Agrees, AsMap, Ordered, Places;
    var after, place := List(Fold(auth, selfKey, groups, data)), Places(auth, selfKey, List(groups), data);
    FoldRefinesMap(auth, selfKey, groups, data);
    AgreesExactly(auth, selfKey, List(groups), data);
    FoldOrdered(auth, selfKey, groups, data);
    if AsMap(after) == AsMap(List(groups)) && Ordered(List(groups), place) {
      OrderedUnique(after, List(groups), place);
    }
  }

  // Order matters: dropped and added again as it was, an entry moves to the end,
  // although every key's last record asks for what was held.
  lemma ReaddedMovesBack(auth: Authority, selfKey: Bytes, a: Membership, b: Membership,
                         drop: Bytes, m: Membership, again: Bytes, n: Membership)
    requires a.key != b.key && n.(subject := None) == a
    requires Examine(auth, selfKey, drop) == Ok(Some(m)) && m.key == a.key && m.status != VALID
    requires Examine(auth, selfKey, again) == Ok(Some(n)) && n.status == VALID
    ensures Agrees(auth, selfKey, [a, b], [drop, again])
    ensures Fold(auth, selfKey, Some([a, b]), [drop, again]) == Some([b, a])
  {
    hide Examine;
    var data := [drop, again];
    assert data[..1] == [drop] && [drop][..0] == [] && [drop][0] == drop;
    assert Fold(auth, selfKey, Some([a, b]), []) == Some([a, b]);
    assert [a, b][1..] == [b] && [b][1..] == [];
    RemoveStep([a, b], a.key);
    RemoveStep([b], a.key);
    assert Remove([b], a.key) == [b] + Remove([], a.key) == [b];
    assert Remove([a, b], a.key) == [b];
    assert Put([b], a) == [b, a];
    assert Fold(auth, selfKey, Some([a, b]), [drop]) == Apply(Some([a, b]), m) == Some([b]);
    forall key ensures LastAbout(auth, selfKey, data, key) == if key == a.key then Some(n) else None {
      assert key != a.key ==> LastAbout(auth, selfKey, [drop], key) == LastAbout(auth, selfKey, [], key);
    }
    assert AsMap([a, b])[a.key] == a;
  }

  // Some record applies to the card, so it has a list afterwards.
  predicate Applies(auth: Authority, selfKey: Bytes, data: seq<Bytes>) {
    exists i :: 0 <= i < |data| && Examine(auth, selfKey, data[i]).Ok? && Examine(auth, selfKey, data[i]).value.Some?
  }

  lemma {:induction false} FoldHasList(auth: Authority, selfKey: Bytes, groups: Memberships, data: seq<Bytes>)
    ensures Fold(auth, selfKey, groups, data).Some? <==> groups.Some? || Applies(auth, selfKey, data)
    ensures groups.None? && !Applies(auth, selfKey, data) ==> Fold(auth, selfKey, groups, data).None?
  {
    hide Examine;
    if data != [] {
      var front := data[..|data| - 1];
      FoldHasList(auth, selfKey, groups, front);
      assert data == front + [data[|front|]];
      AppliesSnoc(auth, selfKey, front, data[|front|]);
    }
  }

  lemma AppliesSnoc(auth: Authority, selfKey: Bytes, front: seq<Bytes>, last: Bytes)
    ensures Applies(auth, selfKey, front + [last]) <==>
              Applies(auth, selfKey, front)
              || (Examine(auth, selfKey, last).Ok? && Examine(auth, selfKey, last).value.Some?)
  {
    hide Examine;
    var data := front + [last];
    assert data[|front|] == last;
    assert forall i :: 0 <= i < |front| ==> data[i] == front[i];
    if Applies(auth, selfKey, front) {
      var i :| 0 <= i < |front| && Examine(auth, selfKey, front[i]).Ok? && Examine(auth, selfKey, front[i]).value.Some?;
      assert data[i] == front[i];
    }
  }

  // ----- The card, updated in place -----------------------------------------

  // `groups.retain(|sub| sub.key != key)`
  method Retain(list: seq<Membership>, key: Bytes) returns (kept: seq<Membership>)
    ensures kept == Remove(list, key)
  {
    kept := [];
    var i := 0;
    assert list[0..] == list;
    while i < |list|
      invariant 0 <= i <= |list|
      invariant kept + Remove(list[i..], key) == Remove(list, key)
    {
      assert list[i..][1..] == list[i + 1..];
      if list[i].key != key {
        kept := kept + [list[i]];
      }
      i := i + 1;
    }
  }

  // `groups.iter_mut().find(|sub| sub.key == key)`
  method FindKey(list: seq<Membership>, m: Membership) returns (i: nat)
    ensures i <= |list| && (forall j :: 0 <= j < i ==> list[j].key != m.key)
    ensures i < |list| ==> list[i].key == m.key && Put(list, m) == list[i := m]
    ensures i == |list| ==> Put(list, m) == list + [m]
  {
    i := 0;
    assert list[0..] == list;
    while i < |list| && list[i].key != m.key
      invariant i <= |list| && forall j :: 0 <= j < i ==> list[j].key != m.key
      invariant Put(list, m) == list[..i] + Put(list[i..], m)
    {
      assert list[i..][1..] == list[i + 1..];
      i := i + 1;
    }
    if i < |list| {
      assert list[i..][1..] == list[i + 1..];
    }
  }

  lemma GrantedPrefix(auth: Authority, selfKey: Bytes, data: seq<Bytes>, n: nat, m: Membership)
    requires n <= |data|
    ensures Granted(auth, selfKey, data[..n], m) ==> Granted(auth, selfKey, data, m)
  {
    if i, p :| 0 <= i < n && Grants(auth, selfKey, data[..n][i], p, m) {
      assert Grants(auth, selfKey, data[i], p, m);
    }
  }

  lemma FoldNothing(auth: Authority, selfKey: Bytes, groups: Memberships, data: seq<Bytes>)
    ensures Fold(auth, selfKey, groups, data[..0]) == groups
  {
  }

  lemma FoldNext(auth: Authority, selfKey: Bytes, groups: Memberships, data: seq<Bytes>, i: nat)
    requires i < |data|
    ensures var before := Fold(auth, selfKey, groups, data[..i]);
            Fold(auth, selfKey, groups, data[..i + 1]) ==
            match Examine(auth, selfKey, data[i]) case Ok(Some(m)) => Apply(before, m) case _ => before
  {
    hide Examine, Apply;
    assert data[..i + 1][..i] == data[..i];
  }

  class IdCard {
    const selfKey: Bytes
    var groups: Memberships

    constructor (selfKey: Bytes, groups: Memberships)
      ensures this.selfKey == selfKey && this.groups == groups
    {
      this.selfKey := selfKey;
      this.groups := groups;
    }

    // Stops at the first rejected record; the records before it stay applied.
    method UpdateGroups(auth: Authority, data: seq<Bytes>) returns (r: Result<(), Error>)
      modifies this
      ensures groups == Fold(auth, selfKey, old(groups), data[..Accepted(auth, selfKey, data)])
      ensures r.Ok? <==> Accepted(auth, selfKey, data) == |data|
      ensures r.Err? ==>
                var buf := data[Accepted(auth, selfKey, data)];
                && !Acceptable(auth, selfKey, buf)
                && r.error == if auth.parse(buf).None? then Malformed else Unverified
      ensures r.Ok? <==> forall i :: 0 <= i < |data| ==> Acceptable(auth, selfKey, data[i])
      ensures forall m :: m in List(groups) ==> m in List(old(groups)) || Granted(auth, selfKey, data, m)
    {
      hide Accepted, AsMap, Put, Remove, Fold, Granted;
      AcceptedExactly(auth, selfKey, data);
      ghost var before := groups;
      forall m | m in List(Fold(auth, selfKey, before, data[..Accepted(auth, selfKey, data)]))
        ensures m in List(before) || Granted(auth, selfKey, data, m)
      {
        StoredWasVerified(auth, selfKey, before, data[..Accepted(auth, selfKey, data)], m);
        GrantedPrefix(auth, selfKey, data, Accepted(auth, selfKey, data), m);
      }
      FoldNothing(auth, selfKey, groups, data);
      var i := 0;
      while i < |data|
        invariant 0 <= i <= |data|
        invariant groups == Fold(auth, selfKey, old(groups), data[..i])
        invariant forall j :: 0 <= j < i ==> Examine(auth, selfKey, data[j]).Ok?
      {
        FoldNext(auth, selfKey, before, data, i);
        AcceptedAt(auth, selfKey, data, i);
        var m := auth.parse(data[i]);
        if m.None? {
          return Err(Malformed);
        }
        if m.value.subject == Some(selfKey) {
          if !auth.verify(m.value) {
            return Err(Unverified);
          }
          var list := List(groups);
          groups := Some(list);
          if m.value.status != VALID {
            list := Retain(list, m.value.key);
          } else {
            var stored := m.value.(subject := None);
            var at := FindKey(list, stored);
            if at < |list| {
              list := list[at := stored];
            } else {
              list := list + [stored];
            }
          }
          groups := Some(list);
        }
        i := i + 1;
      }
      AcceptedAt(auth, selfKey, data, i);
      r := Ok(());
    }
  }

  lemma AcceptedAt(auth: Authority, selfKey: Bytes, data: seq<Bytes>, i: nat)
    requires i <= |data| && forall j :: 0 <= j < i ==> Examine(auth, selfKey, data[j]).Ok?
    ensures i == |data| || Examine(auth, selfKey, data[i]).Err? ==> Accepted(auth, selfKey, data) == i
  {
  }

  // ----- Re-signing ---------------------------------------------------------

  // Signing a card: fails, or yields the signed form of its memberships.
  type Signer = Memberships -> Option<Bytes>

  class IdState {
    const card: IdCard
    var signed: Bytes

    constructor (card: IdCard, signed: Bytes)
      ensures this.card == card && this.signed == signed
    {
      this.card := card;
      this.signed := signed;
    }

    method HandleGroups(auth: Authority, sign: Signer, data: seq<Bytes>) returns (r: Result<(), Error>)
      modifies this, card
      ensures (card.groups, signed, r.Ok?) == Handled(auth, card.selfKey, sign, old(card.groups), old(signed), data)
    {
      hide Fold, Examine;
      var n := Accepted(auth, card.selfKey, data);
      assert n == |data| ==> data[..n] == data;
      var updated := card.UpdateGroups(auth, data);
      if updated.Err? {
        return updated;
      }
      var s := sign(card.groups);
      if s.None? {
        return Err(SigningFailed);
      }
      signed := s.value;
      r := Ok(());
    }
  }

  // The card's memberships, the signed form and success, after a batch.
  function Handled(auth: Authority, selfKey: Bytes, sign: Signer, groups: Memberships, signed: Bytes,
                   data: seq<Bytes>): (Memberships, Bytes, bool)
  {
    var n := Accepted(auth, selfKey, data);
    var groups' := Fold(auth, selfKey, groups, data[..n]);
    if n == |data| && sign(groups').Some? then (groups', sign(groups').value, true)
    else (groups', signed, false)
  }

  // The signed form sent in handshakes is that of the current card.
  predicate InSync(sign: Signer, groups: Memberships, signed: Bytes) { sign(groups) == Some(signed) }

  // Signed forms tell different lists apart; an absent list and an empty one need
  // not differ.
  ghost predicate TellsListsApart(sign: Signer) {
    forall g, h :: sign(g).Some? && sign(g) == sign(h) ==> List(g) == List(h)
  }

  // From a card in sync: after a batch without a rejected record the signed form
  // is the card's if and only if signing works. After a rejected record it is if
  // and only if, over the records before it, every key's last record asks for
  // what the card held, no key was removed and added back out of order, and a
  // card without a list got none or signs an empty list alike.
  lemma SyncAfterHandled(auth: Authority, selfKey: Bytes, sign: Signer, groups: Memberships, signed: Bytes,
                         data: seq<Bytes>)
    requires InSync(sign, groups, signed) && TellsListsApart(sign) && DistinctKeys(List(groups))
    ensures var (groups', signed', ok) := Handled(auth, selfKey, sign, groups, signed, data);
            var n := Accepted(auth, selfKey, data);
            && (n == |data| ==>
                  && groups' == Fold(auth, selfKey, groups, data)
                  && ok == sign(groups').Some? == InSync(sign, groups', signed'))
            && (n < |data| ==>
                  && !ok && signed' == signed
                  && (InSync(sign, groups', signed') <==>
                        && Agrees(auth, selfKey, List(groups), data[..n])
                        && Ordered(List(groups), Places(auth, selfKey, List(groups), data[..n]))
                        && (groups.None? && Applies(auth, selfKey, data[..n]) ==> sign(Some([])) == sign(None))))
  {
    hide Fold, Agrees, Ordered, Places, DistinctKeys, Applies, Accepted;
    var n := Accepted(auth, selfKey, data);
    if n == |data| {
      assert data[..n] == data;
    } else {
      UnchangedExactly(auth, selfKey, groups, data[..n]);
      FoldHasList(auth, selfKey, groups, data[..n]);
    }
  }

  // On any card: a valid record for a membership it does not already hold,
  // followed by a rejected one, leaves the signed form stale.
  lemma FailureMidwayDesyncs(auth: Authority, selfKey: Bytes, sign: Signer, groups: Memberships, signed: Bytes,
                             good: Bytes, m: Membership, bad: Bytes)
    requires InSync(sign, groups, signed) && TellsListsApart(sign) && DistinctKeys(List(groups))
    requires Examine(auth, selfKey, good) == Ok(Some(m)) && m.status == VALID
    requires m.(subject := None) !in List(groups)
    requires Examine(auth, selfKey, bad).Err?
    ensures var (groups', signed', ok) := Handled(auth, selfKey, sign, groups, signed, [good, bad]);
            !ok && !InSync(sign, groups', signed')
  {
    hide Examine, Ordered, Places, Applies, Fold, DistinctKeys;
    var data := [good, bad];
    assert Accepted(auth, selfKey, data) == 1 by {
      assert data[1..] == [bad];
    }
    assert data[..1] == [good];
    SyncAfterHandled(auth, selfKey, sign, groups, signed, data);
    assert LastAbout(auth, selfKey, [good], m.key) == Some(m);
    ValuesOfMap(List(groups), m.key);
  }

  lemma {:induction false} ValuesOfMap(list: seq<Membership>, key: Bytes)
    ensures key in AsMap(list) ==> AsMap(list)[key] in list
  {
    if list != [] {
      ValuesOfMap(list[1..], key);
    }
  }
}
