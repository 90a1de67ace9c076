/** Name-lists (section 5 of RFC 4251): names separated by commas. */
module NameList {
  import opened Octets

  const COMMA: byte := 44

  /** The index of the first comma, or the length. */
  function FirstComma(list: Bytes): (e: nat)
    ensures e <= |list|
    ensures COMMA !in list[..e]
    ensures e < |list| ==> list[e] == COMMA
  {
    if list == [] || list[0] == COMMA then 0
    else
      var e := 1 + FirstComma(list[1..]);
      assert list[..e] == [list[0]] + list[1..][..e - 1];
      e
  }

  function Split(list: Bytes): (names: seq<Bytes>)
    ensures names != []
  {
    var e := FirstComma(list);
    if e == |list| then [list] else [list[..e]] + Split(list[e + 1..])
  }

  function Join(names: seq<Bytes>): Bytes
    requires names != []
  {
    if |names| == 1 then names[0] else names[0] + [44] + Join(names[1..])
  }

  lemma {:induction false} JoinOfSplit(list: Bytes)
    ensures Join(Split(list)) == list
  {
    var e := FirstComma(list);
    if e < |list| {
      JoinOfSplit(list[e + 1..]);
      JoinCons(list[..e], Split(list[e + 1..]));
      CutAt(list, e);
    }
  }

  lemma {:induction false} CutAt(list: Bytes, e: nat)
    requires e < |list|
    ensures list == list[..e] + [list[e]] + list[e + 1..]
  {
  }

  lemma {:induction false} JoinCons(name: Bytes, names: seq<Bytes>)
    requires names != []
    ensures Join([name] + names) == name + [COMMA] + Join(names)
  {
    assert ([name] + names)[1..] == names;
  }

  lemma {:induction false} FirstCommaOf(name: Bytes, rest: Bytes)
    requires COMMA !in name
    ensures FirstComma(name + [COMMA] + rest) == |name|
    ensures FirstComma(name) == |name|
  {
    if name != [] {
      FirstCommaOf(name[1..], rest);
      assert (name + [COMMA] + rest)[1..] == name[1..] + [COMMA] + rest;
    }
  }

  /** Any list of comma-free names survives being joined and split. */
  lemma {:induction false} SplitOfJoin(names: seq<Bytes>)
    requires names != []
    requires forall n :: n in names ==> COMMA !in n
    ensures Split(Join(names)) == names
  {
    if |names| == 1 {
      FirstCommaOf(names[0], []);
    } else {
      SplitOfJoin(names[1..]);
      SplitCons(names[0], Join(names[1..]));
      assert names == [names[0]] + names[1..];
    }
  }

  lemma {:induction false} SplitCons(name: Bytes, rest: Bytes)
    requires COMMA !in name
    ensures Split(name + [COMMA] + rest) == [name] + Split(rest)
  {
    FirstCommaOf(name, rest);
    assert (name + [COMMA] + rest)[..|name|] == name && (name + [COMMA] + rest)[|name| + 1..] == rest;
  }

  /** The inner loop of the scan: the next comma, or the end. */
  method NameEnd(list: Bytes, start: nat) returns (end: nat)
    requires start <= |list|
    ensures start <= end <= |list| && COMMA !in list[start..end]
    ensures end < |list| ==> list[end] == COMMA
  {
    end := start;
    while end < |list| && list[end] != COMMA
      invariant start <= end <= |list|
      invariant COMMA !in list[start..end]
    {
      assert list[start..end + 1] == list[start..end] + [list[end]];
      end := end + 1;
    }
  }

  ghost predicate Names(list: Bytes, start: nat, token: Bytes)
    requires start <= |list|
  {
    token in Split(list[start..])
  }

  /** The scan of netnox_ssh_namelist_contains finds exactly the nonempty names of the list. */
  method Contains(list: Bytes, token: Bytes) returns (found: bool)
    ensures found <==> token != [] && token in Split(list)
  {
    hide Names, Split;
    if |token| == 0 {
      return false;
    }
    var start := 0;
    ghost var wanted := Names(list, 0, token);
    AllNames(list, token);
    while start < |list|
      invariant 0 <= start <= |list|
      invariant wanted == Names(list, start, token)
    {
      var end := NameEnd(list, start);
      NameFrom(list, start, end, token);
      if end - start == |token| && list[start..end] == token {
        return true;
      }
      if end >= |list| {
        return false;
      }
      start := end + 1;
    }
    NothingLeft(list, token);
    found := false;
  }

  lemma {:induction false} AllNames(list: Bytes, token: Bytes)
    ensures Names(list, 0, token) <==> token in Split(list)
  {
    assert list[0..] == list;
  }

  lemma {:induction false} NothingLeft(list: Bytes, token: Bytes)
    requires token != []
    ensures !Names(list, |list|, token)
  {
    assert list[|list|..] == [];
    assert Split([]) == [[]];
  }

  lemma {:induction false} NameFrom(list: Bytes, start: nat, end: nat, token: Bytes)
    requires start <= end <= |list| && COMMA !in list[start..end]
    requires end == |list| || list[end] == COMMA
    ensures Names(list, start, token)
        <==> token == list[start..end] || (end < |list| && Names(list, end + 1, token))
  {
    SplitFrom(list, start, end);
  }

  /** One turn of the scan: the bytes up to the next comma are the first name of what is left. */
  lemma {:induction false} SplitFrom(list: Bytes, start: nat, end: nat)
    requires start <= end <= |list| && COMMA !in list[start..end]
    requires end == |list| || list[end] == COMMA
    ensures Split(list[start..])
         == if end == |list| then [list[start..end]] else [list[start..end]] + Split(list[end + 1..])
  {
    var name := list[start..end];
    if end == |list| {
      FirstCommaOf(name, []);
      assert list[start..] == name;
    } else {
      FirstCommaOf(name, list[end + 1..]);
      assert list[start..] == name + [COMMA] + list[end + 1..];
      assert list[start..][|name| + 1..] == list[end + 1..];
      assert list[start..][..|name|] == name;
    }
  }
}
