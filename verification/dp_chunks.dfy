/** How many tokens each data-parallel rank handles: shares within a sequence-parallel group,
    the same cut into chunks, and the cumulative counts. */
module DpChunks {
  import opened Common

  lemma Next(k: int, b: int)
    ensures (k + 1) * b == k * b + b
  {
  }

  // ---------------------------------------------------------------- shares

  /** n tokens over that many ranks, rounded up. */
  function Share(n: nat, ranks: nat): nat
    requires ranks > 0
  {
    (n + ranks - 1) / ranks
  }

  /** A share is the least that lets the group carry the rank's tokens, so a group carries
      fewer than one extra token for each of its members. */
  lemma ShareIsLeast(n: nat, ranks: nat)
    requires ranks > 0
    ensures n <= Share(n, ranks) * ranks < n + ranks
    ensures forall s: nat :: n <= s * ranks ==> Share(n, ranks) <= s
  {
    var share := Share(n, ranks);
    assert n + ranks - 1 == share * ranks + (n + ranks - 1) % ranks;
    forall s: nat | n <= s * ranks ensures share <= s {
      ProductAtLeast(share - s, ranks);
      Next(s, ranks);
      assert (share - s) * ranks == share * ranks - s * ranks;
    }
  }

  function Repeat(x: nat, times: nat): (r: seq<nat>)
    ensures |r| == times && forall i :: 0 <= i < times ==> r[i] == x
  {
    seq(times, i => x)
  }

  /** Every data-parallel rank's share, once for each member of its sequence-parallel group. */
  function Shares(tokens: seq<nat>, sp: nat): seq<nat>
    requires sp > 0
  {
    if tokens == [] then [] else Repeat(Share(tokens[0], sp), sp) + Shares(tokens[1..], sp)
  }

  lemma {:induction false} SumRepeat(x: nat, times: nat)
    ensures Sum(Repeat(x, times)) == times * x
  {
    if times > 0 {
      assert Repeat(x, times)[..times - 1] == Repeat(x, times - 1);
      SumRepeat(x, times - 1);
      Next(times - 1, x);
    }
  }

  /** Where a data-parallel rank's group lies among the shares, and what stands there. */
  lemma {:induction false} GroupShares(tokens: seq<nat>, sp: nat, d: nat)
    requires sp > 0 && d < |tokens|
    ensures 0 <= d * sp && (d + 1) * sp <= |Shares(tokens, sp)| == |tokens| * sp
    ensures Shares(tokens, sp)[d * sp..(d + 1) * sp] == Repeat(Share(tokens[d], sp), sp)
  {
    SharesLength(tokens, sp);
    ProductAtLeast(d, sp);
    ProductAtLeast(|tokens| - d - 1, sp);
    Next(d, sp);
    assert (|tokens| - d - 1) * sp == |tokens| * sp - (d + 1) * sp;
    var all, head, rest := Shares(tokens, sp), Repeat(Share(tokens[0], sp), sp), Shares(tokens[1..], sp);
    assert all == head + rest;
    if d == 0 {
      assert all[..sp] == head;
    } else {
      GroupShares(tokens[1..], sp, d - 1);
      Next(d - 1, sp);
      DropGroup(head, rest, (d - 1) * sp, d * sp);
    }
  }

  lemma DropGroup(head: seq<nat>, rest: seq<nat>, from: nat, to: nat)
    requires from <= to <= |rest|
    ensures (head + rest)[|head| + from..|head| + to] == rest[from..to]
  {
  }

  lemma {:induction false} SharesLength(tokens: seq<nat>, sp: nat)
    requires sp > 0
    ensures |Shares(tokens, sp)| == |tokens| * sp
  {
    if tokens != [] {
      SharesLength(tokens[1..], sp);
      Next(|tokens| - 1, sp);
    }
  }

  /** Each group's shares carry its rank's tokens, with less than one token over for each member. */
  lemma GroupTotal(tokens: seq<nat>, sp: nat, d: nat)
    requires sp > 0 && d < |tokens|
    ensures 0 <= d * sp <= (d + 1) * sp <= |Shares(tokens, sp)|
    ensures tokens[d] <= Sum(Shares(tokens, sp)[d * sp..(d + 1) * sp]) < tokens[d] + sp
  {
    GroupShares(tokens, sp, d);
    Next(d, sp);
    SumRepeat(Share(tokens[d], sp), sp);
    ShareIsLeast(tokens[d], sp);
  }

  /** The cumulative counts are the running sums of the shares. */
  method CuTokensAcrossSp(tokens: seq<nat>, sp: nat) returns (cu: seq<nat>)
    requires sp > 0
    ensures |cu| == |tokens| * sp == |Shares(tokens, sp)|
    ensures forall i :: 0 <= i < |cu| ==> cu[i] == Sum(Shares(tokens, sp)[..i + 1])
  {
    SharesLength(tokens, sp);
    var shares := Shares(tokens, sp);
    cu := [];
    var running := 0;
    for k := 0 to |shares|
      invariant |cu| == k && running == Sum(shares[..k])
      invariant forall i :: 0 <= i < k ==> cu[i] == Sum(shares[..i + 1])
    {
      assert shares[..k + 1][..k] == shares[..k];
      running := running + shares[k];
      cu := cu + [running];
    }
  }

  /** What a reader of the cumulative counts relies on: between the ends of two neighbouring
      groups they grow by what the group carries. */
  lemma GroupEnds(tokens: seq<nat>, sp: nat, d: nat)
    requires sp > 0 && d < |tokens|
    ensures 0 <= d * sp <= (d + 1) * sp <= |Shares(tokens, sp)|
    ensures tokens[d]
            <= Sum(Shares(tokens, sp)[..(d + 1) * sp]) - Sum(Shares(tokens, sp)[..d * sp])
            < tokens[d] + sp
  {
    GroupTotal(tokens, sp, d);
    var all, from, to := Shares(tokens, sp), d * sp, (d + 1) * sp;
    assert all[..to] == all[..from] + all[from..to];
    SumAppend(all[..from], all[from..to]);
  }

  // ---------------------------------------------------------------- chunks

  /** The size of one chunk of n tokens: never less than 1, so that ranks that are done keep step. */
  function ChunkSize(n: nat, limit: int, index: int): (r: int)
    ensures r >= 1 && (limit >= 1 ==> r <= limit)
  {
    var left := n - limit * index;
    var size := if limit < left then limit else left;
    if size <= 0 then 1 else size
  }

  ghost function ChunksTotal(n: nat, limit: int, chunks: nat): int {
    if chunks == 0 then 0 else ChunksTotal(n, limit, chunks - 1) + ChunkSize(n, limit, chunks - 1)
  }

  /** The chunks that start before n are as many as a share of n over chunks of that size, and
      they add up to n; every later one is a single idle token. */
  lemma {:induction false} ChunksAddUp(n: nat, limit: nat, chunks: nat)
    requires limit >= 1
    ensures chunks < Share(n, limit) <==> limit * chunks < n
    ensures limit * chunks < n ==> ChunksTotal(n, limit, chunks) == limit * chunks
    ensures limit * chunks >= n ==> ChunksTotal(n, limit, chunks) == n + (chunks - Share(n, limit))
    ensures limit * chunks >= n ==> ChunkSize(n, limit, chunks) == 1
  {
    CountIff(n, limit, chunks);
    if chunks > 0 {
      ChunksAddUp(n, limit, chunks - 1);
      var total := ChunksTotal(n, limit, chunks - 1);
      ChunkStep(n, limit, chunks - 1, Share(n, limit), total, limit * (chunks - 1), limit * chunks);
    } else if n == 0 {
      ShareIsLeast(n, limit);
      ProductAtLeast(Share(n, limit), limit);
    }
  }

  /** One chunk more, for a total that is right so far. */
  lemma ChunkStep(n: nat, limit: nat, index: nat, share: nat, total: int, start: int, next: int)
    requires limit >= 1 && start == limit * index && next == limit * (index + 1)
    requires index < share <==> start < n
    requires index + 1 < share <==> next < n
    requires total == if start < n then start else n + (index - share)
    ensures total + ChunkSize(n, limit, index) == if next < n then next else n + (index + 1 - share)
  {
    assert next == start + limit;
  }

  lemma CountIff(n: nat, limit: nat, chunks: nat)
    requires limit >= 1
    ensures chunks < Share(n, limit) <==> limit * chunks < n
  {
    ShareIsLeast(n, limit);
    var share := Share(n, limit);
    ProductAtLeast(share - chunks - 1, limit);
    ProductAtLeast(chunks - share, limit);
    assert (share - chunks - 1) * limit == share * limit - chunks * limit - limit;
    assert (chunks - share) * limit == chunks * limit - share * limit;
  }

  /** Every rank's size of one chunk. */
  ghost predicate AreChunkSizes(tokens: seq<nat>, sp: nat, limit: int, index: int, sizes: seq<int>)
    requires sp > 0
  {
    && |sizes| == |Shares(tokens, sp)|
    && forall i :: 0 <= i < |sizes| ==> sizes[i] == ChunkSize(Shares(tokens, sp)[i], limit, index)
  }

  method ComputeChunkedLocalNumTokens(tokens: seq<nat>, sp: nat, limit: int, index: int) returns (sizes: seq<int>)
    requires sp > 0
    ensures AreChunkSizes(tokens, sp, limit, index, sizes)
  {
    var spTokens := Shares(tokens, sp);
    sizes := seq(|spTokens|, i => -1);
    for i := 0 to |spTokens|
      invariant |sizes| == |spTokens|
      invariant forall j :: 0 <= j < i ==> sizes[j] == ChunkSize(spTokens[j], limit, index)
    {
      var left := spTokens[i] - limit * index;
      sizes := sizes[i := if limit < left then limit else left];
      if sizes[i] <= 0 {
        sizes := sizes[i := 1];
      }
    }
  }
}
