/** The byte stream under the protocol: callbacks that move as much as they like, and the loops that move everything. */
module Transport {
  import opened Octets

  predicate AllPositive(plan: seq<int>) {
    forall i :: 0 <= i < |plan| ==> plan[i] > 0
  }

  /** One direction of the byte stream. A plan says what each transport callback answers: how much it moves, or, when not positive, failure. */
  class Pipe {
    var bytes: Bytes
    var sendPlan: seq<int>
    var recvPlan: seq<int>

    /** The send callback: appends a nonempty prefix of the data, or fails. */
    method SendSome(data: Bytes) returns (n: int)
      requires data != []
      modifies this
      ensures recvPlan == old(recvPlan) && n <= |data|
      ensures bytes == if n > 0 then old(bytes) + data[..n] else old(bytes)
      ensures n > 0 <==> old(sendPlan) != [] && old(sendPlan)[0] > 0
      ensures sendPlan == if old(sendPlan) == [] then [] else old(sendPlan)[1..]
    {
      if sendPlan == [] {
        return 0;
      }
      n := if sendPlan[0] < |data| then sendPlan[0] else |data|;
      sendPlan := sendPlan[1..];
      if n > 0 {
        bytes := bytes + data[..n];
      }
    }

    /** The receive callback: takes a nonempty prefix of what is there, at most len bytes, or fails. */
    method RecvSome(len: nat) returns (n: int, data: Bytes)
      requires len > 0
      modifies this
      ensures sendPlan == old(sendPlan)
      ensures n <= 0 ==> bytes == old(bytes)
      ensures n > 0 ==> n <= len && n <= |old(bytes)| && data == old(bytes)[..n] && bytes == old(bytes)[n..]
      ensures old(recvPlan) != [] ==> recvPlan == old(recvPlan)[1..]
      ensures n > 0 ==> old(recvPlan) != []
      ensures old(recvPlan) != [] && old(recvPlan)[0] > 0 && old(bytes) != [] ==> n > 0
    {
      data := [];
      if recvPlan == [] {
        return 0, [];
      }
      n := if recvPlan[0] < len then recvPlan[0] else len;
      n := if n < |bytes| then n else |bytes|;
      recvPlan := recvPlan[1..];
      if n > 0 {
        data := bytes[..n];
        bytes := bytes[n..];
      }
    }

    /** send_all: repeats the callback until every byte is out. */
    method SendAll(data: Bytes) returns (ok: bool)
      modifies this
      ensures recvPlan == old(recvPlan)
      ensures ok ==> bytes == old(bytes) + data
      ensures Lasts(old(sendPlan), |data|) ==> ok
      ensures ok ==> Keeps(old(sendPlan), sendPlan, |data|)
    {
      var sent := 0;
      while sent < |data|
        invariant 0 <= sent <= |data|
        invariant recvPlan == old(recvPlan)
        invariant bytes == old(bytes) + data[..sent]
        invariant AllPositive(old(sendPlan)) ==> AllPositive(sendPlan) && |sendPlan| >= |old(sendPlan)| - sent
      {
        var n := SendSome(data[sent..]);
        if n <= 0 {
          return false;
        }
        assert data[..sent] + data[sent..][..n] == data[..sent + n];
        sent := sent + n;
      }
      assert data[..sent] == data;
      ok := true;
    }

    /** recv_exact: repeats the callback until the buffer is full. */
    method RecvExact(len: nat) returns (ok: bool, data: Bytes)
      modifies this
      ensures sendPlan == old(sendPlan)
      ensures ok ==> len <= |old(bytes)| && data == old(bytes)[..len] && bytes == old(bytes)[len..]
      ensures Generous(old(recvPlan), old(bytes)) && len <= |old(bytes)| ==> ok && Generous(recvPlan, bytes)
      ensures ok ==> Keeps(old(recvPlan), recvPlan, len)
    {
      data := [];
      ghost var start, willing := bytes, Generous(recvPlan, bytes) && len <= |bytes|;
      while |data| < len
        invariant |data| <= len && |data| <= |start|
        invariant data == start[..|data|] && bytes == start[|data|..]
        invariant sendPlan == old(sendPlan)
        invariant willing ==> Generous(recvPlan, bytes)
        invariant AllPositive(old(recvPlan)) ==> AllPositive(recvPlan) && |recvPlan| >= |old(recvPlan)| - |data|
        decreases len - |data|
      {
        var n, got := RecvSome(len - |data|);
        if n <= 0 {
          return false, data;
        }
        assert start[..|data|] + start[|data|..][..n] == start[..|data| + n];
        data := data + got;
      }
      ok := true;
    }
  }

  /** The callback will move the next k bytes, however it splits them. */
  ghost predicate Lasts(plan: seq<int>, k: nat) {
    AllPositive(plan) && |plan| >= k
  }

  /** A callback that would move the next n bytes, and any more behind them, has moved the n and will still move the rest. */
  ghost predicate Keeps(before: seq<int>, after: seq<int>, n: nat) {
    forall k: nat :: Lasts(before, n + k) ==> Lasts(after, k)
  }

  /** What holds of a number of bytes holds of fewer, and is kept by more. */
  lemma {:induction false} KeepsMore(a: seq<int>, b: seq<int>, m: nat, n: nat)
    requires m <= n
    ensures Lasts(a, n) ==> Lasts(a, m)
    ensures Keeps(a, b, m) ==> Keeps(a, b, n)
  {
    if Keeps(a, b, m) {
      forall k: nat | Lasts(a, n + k)
        ensures Lasts(b, k)
      {
        assert Lasts(a, m + k);
      }
    }
  }

  lemma {:induction false} KeepsBoth(a: seq<int>, b: seq<int>, c: seq<int>, m: nat, n: nat)
    requires Keeps(a, b, m) && Keeps(b, c, n)
    ensures Keeps(a, c, m + n)
  {
    forall k: nat | Lasts(a, m + n + k)
      ensures Lasts(c, k)
    {
      assert Lasts(a, m + (n + k));
      assert Lasts(b, n + k);
    }
  }

  /** The callbacks will keep delivering until everything in flight has been taken. */
  ghost predicate Generous(plan: seq<int>, bytes: Bytes) {
    AllPositive(plan) && |plan| >= |bytes|
  }
}
