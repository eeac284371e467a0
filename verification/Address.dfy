/** Client addresses such as `k.<hash>/endpoint` or `k.<server>.<hash>`: how they
    are printed, how the key hash is read back, and which path segment routes a
    message. */
module Address {
  import opened Common
  import Base64Url

  const KEY_TYPE: u8 := 'k' as int

  // ----- Splitting ----------------------------------------------------------

  function Before(s: Str, c: u8): (t: Str)
    ensures c !in t && |t| <= |s| && s[..|t|] == t
    ensures |t| < |s| ==> s[|t|] == c
    ensures |t| == |s| <==> c !in s
  {
    if s == [] || s[0] == c then [] else
      assert s == [s[0]] + s[1..];
      [s[0]] + Before(s[1..], c)
  }

  function After(s: Str, c: u8): Str
    requires c in s
  {
    s[|Before(s, c)| + 1..]
  }

  function AfterLast(s: Str, c: u8): Str
    decreases |s|
  {
    if c in s then AfterLast(After(s, c), c) else s
  }

  // `s.split(c)`
  function Split(s: Str, c: u8): (parts: seq<Str>)
    ensures parts != []
    decreases |s|
  {
    if c in s then [Before(s, c)] + Split(After(s, c), c) else [s]
  }

  lemma {:induction false} SplitEnds(s: Str, c: u8)
    ensures Split(s, c)[0] == Before(s, c)
    ensures Split(s, c)[|Split(s, c)| - 1] == AfterLast(s, c)
    ensures |Split(s, c)| >= 2 <==> c in s
    decreases |s|
  {
    if c in s {
      SplitEnds(After(s, c), c);
    } else {
      assert Before(s, c) == s;
    }
  }

  lemma {:induction false} BeforeCat(a: Str, c: u8, b: Str)
    requires c !in a
    ensures Before(a + [c] + b, c) == a && After(a + [c] + b, c) == b
  {
    var s := a + [c] + b;
    assert s[|a|] == c;
    if a != [] {
      BeforeCat(a[1..], c, b);
      assert s[1..] == a[1..] + [c] + b;
    }
  }

  lemma {:induction false} AfterLastCat(a: Str, c: u8, b: Str)
    requires c !in b
    ensures AfterLast(a + [c] + b, c) == b
    decreases |a|
  {
    var s := a + [c] + b;
    assert s[|a|] == c;
    if c in a {
      var rest := After(a, c);
      assert a == Before(a, c) + [c] + rest;
      assert s == Before(a, c) + [c] + (rest + [c] + b);
      BeforeCat(Before(a, c), c, rest + [c] + b);
      AfterLastCat(rest, c, b);
    } else {
      BeforeCat(a, c, b);
    }
  }

  // ----- Reading the key hash -----------------------------------------------

  // The error carries the rejected target.
  function RecipientHash(rcv: Str): Result<Bytes, Str> {
    var head := Before(rcv, SLASH);
    var parts := Split(head, DOT);
    if |parts| < 2 || parts[0] != [KEY_TYPE] then Err(head)
    else
      var h := Base64Url.Decode(parts[|parts| - 1]);
      if h.None? then Err(head) else Ok(h.value)
  }

  // The hash is what the text after the last dot decodes to, and it is accepted
  // exactly when the part before any slash also starts with `k.`.
  lemma RecipientHashExact(rcv: Str)
    ensures var head := Before(rcv, SLASH);
            var h := Base64Url.Decode(AfterLast(head, DOT));
            RecipientHash(rcv) == if [KEY_TYPE, DOT] <= head && h.Some? then Ok(h.value) else Err(head)
  {
    hide Base64Url.Decode, Split, AfterLast;
    var head := Before(rcv, SLASH);
    SplitEnds(head, DOT);
    if DOT in head && Before(head, DOT) == [KEY_TYPE] {
      assert head[1] == DOT;
    }
    if [KEY_TYPE, DOT] <= head {
      assert head == [KEY_TYPE] + [DOT] + head[2..];
      BeforeCat([KEY_TYPE], DOT, head[2..]);
    }
  }

  // ----- Printing -----------------------------------------------------------

  datatype ClientId = ClientId(typ: u8, serverId: Str, target: Str) {
    function Print(): Str {
      if serverId == [] then [typ, DOT] + target else [typ, DOT] + serverId + [DOT] + target
    }
  }

  function KeyId(hash: Bytes): ClientId { ClientId(KEY_TYPE, [], Base64Url.Encode(hash)) }

  function TargetId(hash: Bytes): Str { KeyId(hash).Print() }

  predicate IsPath(path: Str) { path == [] || path[0] == SLASH }

  lemma SplitCat(a: Str, c: u8, b: Str)
    requires c !in a
    ensures Split(a + [c] + b, c) == [a] + Split(b, c)
  {
    BeforeCat(a, c, b);
    assert (a + [c] + b)[|a|] == c;
  }

  // The printed form is its parts between dots: type, server if any, target.
  lemma PrintedParts(id: ClientId)
    requires DOT !in id.serverId && DOT !in id.target && id.typ != DOT
    ensures Split(id.Print(), DOT)
         == if id.serverId == [] then [[id.typ], id.target] else [[id.typ], id.serverId, id.target]
  {
    assert Split(id.target, DOT) == [id.target];
    hide Split;
    if id.serverId == [] {
      assert id.Print() == [id.typ] + [DOT] + id.target;
      SplitCat([id.typ], DOT, id.target);
    } else {
      var tail := id.serverId + [DOT] + id.target;
      assert id.Print() == [id.typ] + [DOT] + tail;
      SplitCat([id.typ], DOT, tail);
      SplitCat(id.serverId, DOT, id.target);
    }
  }

  // A recipient routes if and only if it has a slash.
  lemma RoutesExactly(rcv: Str)
    ensures RouteName(rcv).Some? <==> SLASH in rcv
  {
  }

  // Whatever server id and endpoint surround it, the hash comes back.
  lemma RecipientHashOfPrinted(hash: Bytes, serverId: Str, path: Str)
    requires SLASH !in serverId && IsPath(path)
    ensures RecipientHash(ClientId(KEY_TYPE, serverId, Base64Url.Encode(hash)).Print() + path) == Ok(hash)
  {
    hide Base64Url.Encode, Base64Url.Decode, RecipientHash;
    var target := Base64Url.Encode(hash);
    var printed := ClientId(KEY_TYPE, serverId, target).Print();
    Base64Url.EncodeHasNoSeparator(hash);
    Base64Url.DecodeEncode(hash);
    HeadOfPath(printed, path);
    if serverId == [] {
      assert printed == [KEY_TYPE] + [DOT] + target;
      AfterLastCat([KEY_TYPE], DOT, target);
    } else {
      AfterLastCat([KEY_TYPE, DOT] + serverId, DOT, target);
    }
    RecipientHashExact(printed + path);
  }

  lemma HeadOfPath(head: Str, path: Str)
    requires SLASH !in head && IsPath(path)
    ensures Before(head + path, SLASH) == head
  {
    if path == [] {
      assert head + path == head;
      assert Before(head, SLASH) == head;
    } else {
      assert head + path == head + [SLASH] + path[1..];
      BeforeCat(head, SLASH, path[1..]);
    }
  }

  lemma TargetIdParses(hash: Bytes, path: Str)
    requires IsPath(path)
    ensures RecipientHash(TargetId(hash) + path) == Ok(hash)
    ensures SLASH !in TargetId(hash)
  {
    hide Base64Url.Encode;
    Base64Url.EncodeHasNoSeparator(hash);
    RecipientHashOfPrinted(hash, [], path);
  }

  // ----- Routing ------------------------------------------------------------

  // The first path segment of a recipient, which selects a reply queue or handler.
  function RouteName(rcv: Str): Option<Str> {
    if SLASH in rcv then Some(Before(After(rcv, SLASH), SLASH)) else None
  }

  lemma RouteNameOfPath(head: Str, name: Str, path: Str)
    requires SLASH !in head && SLASH !in name && IsPath(path)
    ensures RouteName(head + [SLASH] + name + path) == Some(name)
  {
    var rcv := head + [SLASH] + name + path;
    assert rcv == head + [SLASH] + (name + path);
    BeforeCat(head, SLASH, name + path);
    assert rcv[|head|] == SLASH;
    HeadOfPath(name, path);
  }
}
