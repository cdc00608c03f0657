/** Gathering a ragged batch from a paged cache: each token is placed in its sequence by a
    search in the cumulative lengths, then its row is copied from the block it is looked up in. */
module XpuGather {
  import opened Common

  // ---------------------------------------------------------------- arithmetic

  /** A multiple of n is too far from zero to be made up for by anything smaller than n. */
  lemma SmallMultiple(a: int, n: int, rest: int)
    requires 0 <= rest < n && a * n == rest
    ensures a == 0 && rest == 0
  {
    ProductAtLeast(a, n);
  }

  lemma Apart(a: int, b: int, n: int)
    ensures a * n - b * n == (a - b) * n
  {
  }

  // ---------------------------------------------------------------- tokens and their places

  /** Cumulative lengths of a batch that holds n tokens. */
  ghost predicate Cumulative(cu: seq<int>, n: nat) {
    && |cu| >= 1 && cu[0] == 0 && cu[|cu| - 1] == n
    && forall i, j :: 0 <= i < j < |cu| ==> cu[i] <= cu[j]
  }

  lemma Ascending(cu: seq<int>, n: nat, i: nat, j: nat)
    requires Cumulative(cu, n) && i < |cu| && j < |cu|
    ensures i <= j ==> cu[i] <= cu[j]
  {
  }

  /** The first index whose entry is at least t. */
  function SearchSorted(cu: seq<int>, t: int): (r: nat)
    ensures r <= |cu|
    ensures forall i :: 0 <= i < r ==> cu[i] < t
    ensures r < |cu| ==> t <= cu[r]
  {
    if cu == [] || t <= cu[0] then 0
    else
      var rest := SearchSorted(cu[1..], t);
      assert forall i :: 0 < i < |cu| ==> cu[i] == cu[1..][i - 1];
      rest + 1
  }

  /** A sequence of the batch, and a position in it counted from 1. */
  datatype Place = Place(sequence: nat, position: int)

  ghost predicate Holds(cu: seq<int>, p: Place) {
    p.sequence + 1 < |cu| && 1 <= p.position <= cu[p.sequence + 1] - cu[p.sequence]
  }

  ghost predicate Before(p: Place, q: Place) {
    p.sequence < q.sequence || (p.sequence == q.sequence && p.position < q.position)
  }

  function PlaceOf(cu: seq<int>, token: nat): Place
    requires |cu| >= 2
  {
    var b := Clamp(SearchSorted(cu, token + 1) - 1, 0, |cu| - 2);
    Place(b, token + 1 - cu[b])
  }

  /** The token at a place. */
  ghost function TokenAt(cu: seq<int>, p: Place): int
    requires p.sequence < |cu|
  {
    cu[p.sequence] + p.position - 1
  }

  /** Every token has a place that its sequence really has, and the clamp changes nothing. */
  lemma TokenHasPlace(cu: seq<int>, n: nat, token: nat)
    requires Cumulative(cu, n) && token < n
    ensures |cu| >= 2 && Holds(cu, PlaceOf(cu, token)) && TokenAt(cu, PlaceOf(cu, token)) == token
    ensures PlaceOf(cu, token).sequence == SearchSorted(cu, token + 1) - 1
  {
    var r := SearchSorted(cu, token + 1);
    assert cu[0] < token + 1 <= cu[|cu| - 1];
    assert 0 < r < |cu|;
    assert cu[r - 1] < token + 1;
  }

  /** Every place has a token, which is placed there: with TokenHasPlace, a bijection. An empty
      sequence has no place, so no token is put in one. */
  lemma PlaceHasToken(cu: seq<int>, n: nat, p: Place)
    requires Cumulative(cu, n) && Holds(cu, p)
    ensures 0 <= TokenAt(cu, p) < n && PlaceOf(cu, TokenAt(cu, p)) == p
  {
    var t, s := TokenAt(cu, p), p.sequence;
    assert s > 0 ==> cu[0] <= cu[s];
    assert s + 1 < |cu| - 1 ==> cu[s + 1] <= cu[|cu| - 1];
    var r := SearchSorted(cu, t + 1);
    // entries up to s are too small, and entry s + 1 is large enough
    Ascending(cu, n, r, s);
  }

  /** Tokens go to their places in order. */
  lemma PlacesAreOrdered(cu: seq<int>, n: nat, first: nat, second: nat)
    requires Cumulative(cu, n) && first < second < n
    ensures |cu| >= 2 && Before(PlaceOf(cu, first), PlaceOf(cu, second))
  {
    TokenHasPlace(cu, n, first);
    TokenHasPlace(cu, n, second);
    var p, q := PlaceOf(cu, first), PlaceOf(cu, second);
    Ascending(cu, n, q.sequence + 1, p.sequence);
  }

  // ---------------------------------------------------------------- addresses

  /** The column of the block table a position is looked up in, and the slot within that block. */
  function Column(position: nat, blockSize: nat): nat
    requires blockSize > 0
  {
    position / blockSize
  }

  function Slot(position: int, blockSize: nat): nat
    requires blockSize > 0
  {
    (position - 1) % blockSize
  }

  /** The column that the position counted from 0 belongs to. */
  ghost function HomeColumn(position: int, blockSize: nat): int
    requires blockSize > 0
  {
    (position - 1) / blockSize
  }

  /** Column and slot make up the position again exactly when it is no multiple of the block size. */
  lemma RecomposesIff(position: nat, blockSize: nat)
    requires position > 0 && blockSize > 0
    ensures Column(position, blockSize) * blockSize + Slot(position, blockSize) == position - 1
            <==> position % blockSize != 0
    ensures Column(position, blockSize)
            == HomeColumn(position, blockSize) + if position % blockSize == 0 then 1 else 0
  {
    var n, q, home, slot := blockSize, position / blockSize, (position - 1) / blockSize, Slot(position, blockSize);
    var rest := position % n;
    assert q * n + rest == home * n + slot + 1;
    Apart(q, home, n);
    if rest == 0 {
      ProductAtLeast(q - home, n);
      ProductAtLeast(q - home - 1, n);
      Apart(q - home, 1, n);
    } else {
      ProductAtLeast(q - home, n);
    }
  }

  function KeyAddress(table: seq<int>, blockSize: nat, stride: nat, width: nat, position: nat): int
    requires blockSize > 0 && Column(position, blockSize) < |table|
  {
    table[Column(position, blockSize)] * stride + Slot(position, blockSize) * width
  }

  function ScaleAddress(table: seq<int>, blockSize: nat, stride: nat, width: nat, scaleSize: nat, position: nat): int
    requires blockSize > 0 && Column(position, blockSize) < |table|
  {
    table[Column(position, blockSize)] * stride + width + Slot(position, blockSize) * scaleSize
  }

  /** Where a block starts that holds the position, when the cache is filled block by block. */
  ghost function HomeBlock(table: seq<int>, blockSize: nat, stride: nat, position: nat): int
    requires blockSize > 0 && position > 0 && Column(position, blockSize) < |table|
  {
    RecomposesIff(position, blockSize);
    table[HomeColumn(position, blockSize)] * stride
  }

  /** The look-up finds the block that holds the position: it is in the same column, or the next
      column repeats it. */
  ghost predicate FindsHome(table: seq<int>, blockSize: nat, position: nat)
    requires blockSize > 0 && position > 0 && Column(position, blockSize) < |table|
  {
    RecomposesIff(position, blockSize);
    table[Column(position, blockSize)] == table[HomeColumn(position, blockSize)]
  }

  lemma FindsHomeUnlessMultiple(table: seq<int>, blockSize: nat, position: nat)
    requires blockSize > 0 && position > 0 && Column(position, blockSize) < |table|
    ensures position % blockSize != 0 ==> FindsHome(table, blockSize, position)
    ensures position % blockSize == 0 ==>
      FindsHome(table, blockSize, position) ==
      (table[Column(position, blockSize)] == table[Column(position, blockSize) - 1])
  {
    RecomposesIff(position, blockSize);
  }

  /** An address in the block that is looked up meets one in the home block exactly when the
      block is the same and the offsets are: provided the offsets differ by less than a block. */
  lemma SameBlockIff(table: seq<int>, blockSize: nat, stride: nat, position: nat, read: int, kept: int)
    requires blockSize > 0 && position > 0 && Column(position, blockSize) < |table|
    requires 0 <= kept - read < stride
    ensures table[Column(position, blockSize)] * stride + read == HomeBlock(table, blockSize, stride, position) + kept
            <==> FindsHome(table, blockSize, position) && read == kept
  {
    RecomposesIff(position, blockSize);
    var a, b := table[Column(position, blockSize)], table[HomeColumn(position, blockSize)];
    Apart(a, b, stride);
    if (a - b) * stride == kept - read {
      SmallMultiple(a - b, stride, kept - read);
    }
  }

  /** Blocks laid out as the gather documents them, keys first and then scales: a key is read
      where it belongs exactly when its position is no multiple of the block size, or the next
      column of the table repeats its block. */
  lemma KeyInBlockLayoutIff(table: seq<int>, blockSize: nat, stride: nat, width: nat, position: nat)
    requires blockSize > 0 && position > 0 && Column(position, blockSize) < |table|
    requires stride > 0
    ensures KeyAddress(table, blockSize, stride, width, position)
            == HomeBlock(table, blockSize, stride, position) + Slot(position, blockSize) * width
            <==> position % blockSize != 0
                 || table[Column(position, blockSize)] == table[Column(position, blockSize) - 1]
  {
    var offset := Slot(position, blockSize) * width;
    SameBlockIff(table, blockSize, stride, position, offset, offset);
    FindsHomeUnlessMultiple(table, blockSize, position);
  }

  /** In that layout a scale is looked for after the first key of the block rather than after the
      last, so it is read where it belongs only if the block has one slot and the next column
      repeats it. */
  lemma ScaleInBlockLayoutIff(table: seq<int>, blockSize: nat, stride: nat, width: nat, scaleSize: nat, position: nat)
    requires blockSize > 0 && position > 0 && Column(position, blockSize) < |table|
    requires width > 0 && blockSize * width < stride
    ensures ScaleAddress(table, blockSize, stride, width, scaleSize, position)
            == HomeBlock(table, blockSize, stride, position) + blockSize * width + Slot(position, blockSize) * scaleSize
            <==> blockSize == 1 && table[position] == table[position - 1]
  {
    var offset := Slot(position, blockSize) * scaleSize;
    ProductAtLeast(blockSize, width);
    SameBlockIff(table, blockSize, stride, position, width + offset, blockSize * width + offset);
    if width == blockSize * width {
      Apart(blockSize, 1, width);
      SmallMultiple(blockSize - 1, width, 0);
    }
    FindsHomeUnlessMultiple(table, blockSize, position);
  }

  /** Rows as the cache write lays them out, each key followed by its four bytes of scale: key
      and scale are read where they were written exactly in the first slot of the home block.
      That is never the block looked up when blocks have one slot, unless the table repeats it. */
  lemma RowLayoutIff(table: seq<int>, blockSize: nat, width: nat, position: nat)
    requires blockSize > 0 && position > 0 && Column(position, blockSize) < |table|
    requires width > 0
    ensures
      var stride, row := blockSize * (width + 4), Slot(position, blockSize) * (width + 4);
      var home := HomeBlock(table, blockSize, stride, position);
      var first := Slot(position, blockSize) == 0
                   && (blockSize > 1 || table[position] == table[position - 1]);
      && (KeyAddress(table, blockSize, stride, width, position) == home + row <==> first)
      && (ScaleAddress(table, blockSize, stride, width, 4, position) == home + row + width <==> first)
  {
    var stride, slot := blockSize * (width + 4), Slot(position, blockSize);
    RowSpreads(slot, blockSize, width);
    FirstSlot(position, blockSize);
    FindsHomeUnlessMultiple(table, blockSize, position);
    SameBlockIff(table, blockSize, stride, position, slot * width, slot * (width + 4));
    SameBlockIff(table, blockSize, stride, position, width + slot * 4, slot * (width + 4) + width);
  }

  lemma RowSpreads(slot: nat, blockSize: nat, width: nat)
    requires slot < blockSize && width > 0
    ensures slot * (width + 4) == slot * width + slot * 4
    ensures 0 <= slot * width && 0 <= slot * 4
    ensures slot * (width + 4) < blockSize * (width + 4)
    ensures slot * width == 0 <==> slot == 0
  {
    ProductAtLeast(slot, width);
    Apart(blockSize, slot, width + 4);
    ProductAtLeast(blockSize - slot, width + 4);
  }

  lemma FirstSlot(position: nat, blockSize: nat)
    requires blockSize > 0 && position > 0
    ensures Slot(position, blockSize) == 0 ==> (position % blockSize != 0 <==> blockSize > 1)
  {
    RecomposesIff(position, blockSize);
  }

  // ---------------------------------------------------------------- the code

  /** Indexing a flat tensor: a negative index counts from the end. */
  function Fetch<T>(flat: seq<T>, i: int): T
    requires -|flat| <= i < |flat|
  {
    if i < 0 then flat[|flat| + i] else flat[i]
  }

  /** Every index of a row that starts there can be fetched. */
  predicate Reachable<T>(flat: seq<T>, start: int, width: nat) {
    width == 0 || -|flat| <= start <= |flat| - width
  }

  ghost predicate InRange<T>(flat: seq<T>, start: int, c: nat) { -|flat| <= start + c < |flat| }

  /** That is, none of its indices is out of range. */
  lemma ReachableIff<T>(flat: seq<T>, start: int, width: nat)
    ensures Reachable(flat, start, width) <==> forall c: nat :: c < width ==> InRange(flat, start, c)
  {
    if width > 0 && forall c: nat :: c < width ==> InRange(flat, start, c) {
      assert InRange(flat, start, 0) && InRange(flat, start, width - 1);
    }
  }

  ghost predicate Copied<T>(flat: seq<T>, start: int, dst: array2<T>, k: nat)
    requires k < dst.Length0
    reads dst
  {
    && Reachable(flat, start, dst.Length1)
    && forall c :: 0 <= c < dst.Length1 ==>
         dst[k, c] == if start + c < 0 then flat[|flat| + start + c] else flat[start + c]
  }

  datatype Copying = AllCopied | OutOfRange | WrongShape

  /** dst[:] = flat[starts + columns], for that many columns: the indices are checked first, and
      then the shape; rows that are too wide for the destination are not cut. */
  method CopyRows<T>(flat: seq<T>, starts: seq<int>, width: nat, dst: array2<T>) returns (result: Copying)
    requires |starts| == dst.Length0 && (width == dst.Length1 || width > dst.Length1 > 0)
    modifies dst
    ensures result == OutOfRange <==> exists k :: 0 <= k < |starts| && !Reachable(flat, starts[k], width)
    ensures result == WrongShape <==> result != OutOfRange && width != dst.Length1
    ensures result == AllCopied ==> forall k :: 0 <= k < |starts| ==> Copied(flat, starts[k], dst, k)
    ensures result != AllCopied ==> unchanged(dst)
  {
    for k := 0 to |starts|
      invariant forall i :: 0 <= i < k ==> Reachable(flat, starts[i], width)
      invariant unchanged(dst)
    {
      if !Reachable(flat, starts[k], width) {
        return OutOfRange;
      }
    }
    if width != dst.Length1 {
      return WrongShape;
    }
    for k := 0 to |starts|
      invariant forall i :: 0 <= i < k ==> Copied(flat, starts[i], dst, i)
    {
      for c := 0 to dst.Length1
        invariant forall i :: 0 <= i < k ==> Copied(flat, starts[i], dst, i)
        invariant forall d :: 0 <= d < c ==> dst[k, d] == Fetch(flat, starts[k] + d)
      {
        dst[k, c] := Fetch(flat, starts[k] + c);
      }
    }
    result := AllCopied;
  }

  /** What the addresses of a call depend on: a table row for each sequence, the cumulative
      lengths, and the cache's block size and stride. */
  datatype Batch = Batch(table: seq<seq<int>>, columns: nat, cu: seq<int>, tokens: nat, blockSize: nat, stride: nat)
  {
    ghost predicate Valid() {
      && Cumulative(cu, tokens) && |cu| == |table| + 1 && blockSize > 0
      && forall b :: 0 <= b < |table| ==> |table[b]| == columns
    }

    ghost predicate InTable(t: nat)
      requires Valid() && t < tokens
    {
      TokenHasPlace(cu, tokens, t);
      Column(PlaceOf(cu, t).position, blockSize) < columns
    }

    /** The block a token is looked up in, and its slot there. */
    ghost function Block(t: nat): int
      requires Valid() && t < tokens && InTable(t)
    {
      TokenHasPlace(cu, tokens, t);
      var p := PlaceOf(cu, t);
      table[p.sequence][Column(p.position, blockSize)]
    }

    ghost function SlotOf(t: nat): nat
      requires Valid() && t < tokens
    {
      TokenHasPlace(cu, tokens, t);
      Slot(PlaceOf(cu, t).position, blockSize)
    }

    ghost function KeyStart(width: nat, t: nat): int
      requires Valid() && t < tokens && InTable(t)
    {
      TokenHasPlace(cu, tokens, t);
      var p := PlaceOf(cu, t);
      KeyAddress(table[p.sequence], blockSize, stride, width, p.position)
    }

    ghost function ScaleStart(width: nat, scaleSize: nat, t: nat): int
      requires Valid() && t < tokens && InTable(t)
    {
      TokenHasPlace(cu, tokens, t);
      var p := PlaceOf(cu, t);
      ScaleAddress(table[p.sequence], blockSize, stride, width, scaleSize, p.position)
    }

    ghost predicate AllInTable()
      requires Valid()
    {
      forall t :: 0 <= t < tokens ==> InTable(t)
    }

    ghost predicate KeysReachable<T>(cache: seq<T>, width: nat)
      requires Valid() && AllInTable()
    {
      forall t :: 0 <= t < tokens ==> Reachable(cache, KeyStart(width, t), width)
    }

    ghost predicate ScalesReachable<T>(cache: seq<T>, width: nat, scaleSize: nat)
      requires Valid() && AllInTable()
    {
      forall t :: 0 <= t < tokens ==> Reachable(cache, ScaleStart(width, scaleSize, t), scaleSize)
    }
  }

  /** Where a token's keys and scales are read, from the sequence it falls in: its position counted from 1
      gives the column, and counted from 0 the slot. */
  lemma StartsFromLengths(batch: Batch, t: nat, b: nat, width: nat, scaleSize: nat)
    requires batch.Valid() && t < batch.tokens && b < |batch.table| && batch.cu[b] <= t < batch.cu[b + 1]
    ensures batch.InTable(t) <==> (t - batch.cu[b] + 1) / batch.blockSize < batch.columns
    ensures batch.InTable(t) ==>
      var block := batch.table[b][(t - batch.cu[b] + 1) / batch.blockSize];
      var slot := (t - batch.cu[b]) % batch.blockSize;
      && batch.KeyStart(width, t) == block * batch.stride + slot * width
      && batch.ScaleStart(width, scaleSize, t) == block * batch.stride + width + slot * scaleSize
  {
    var p := Place(b, t - batch.cu[b] + 1);
    PlaceHasToken(batch.cu, batch.tokens, p);
    assert TokenAt(batch.cu, p) == t;
  }

  ghost function Length(cu: seq<int>, b: nat): int
    requires b + 1 < |cu|
  {
    cu[b + 1] - cu[b]
  }

  lemma ColumnBelowIff(position: nat, blockSize: nat, columns: nat)
    requires blockSize > 0
    ensures Column(position, blockSize) < columns <==> position < columns * blockSize
  {
    var q := position / blockSize;
    Apart(q, columns, blockSize);
    ProductAtLeast(columns - q, blockSize);
    ProductAtLeast(columns - q - 1, blockSize);
    Apart(columns - q, 1, blockSize);
  }

  /** The table must have room for one position more than any sequence that is not empty: a
      sequence that fills its blocks exactly sends its last token out of the table. */
  lemma AllInTableIff(batch: Batch)
    requires batch.Valid()
    ensures batch.AllInTable()
            <==> forall b :: 0 <= b < |batch.table| ==>
                   Length(batch.cu, b) == 0 || Length(batch.cu, b) < batch.columns * batch.blockSize
  {
    var cu, n := batch.cu, batch.tokens;
    if batch.AllInTable() {
      forall b | 0 <= b < |batch.table|
        ensures Length(cu, b) == 0 || Length(cu, b) < batch.columns * batch.blockSize
      {
        Ascending(cu, n, b, b + 1);
        if Length(cu, b) != 0 {
          var last := Place(b, Length(cu, b));
          PlaceHasToken(cu, n, last);
          assert batch.InTable(TokenAt(cu, last));
          ColumnBelowIff(last.position, batch.blockSize, batch.columns);
        }
      }
    }
    if forall b :: 0 <= b < |batch.table| ==> Length(cu, b) == 0 || Length(cu, b) < batch.columns * batch.blockSize {
      forall t | 0 <= t < n ensures batch.InTable(t) {
        TokenHasPlace(cu, n, t);
        var p := PlaceOf(cu, t);
        assert Length(cu, p.sequence) >= p.position;
        ColumnBelowIff(p.position, batch.blockSize, batch.columns);
      }
    }
  }

  method LocateToken(batch: Batch, t: nat) returns (ok: bool, block: int, slot: nat)
    requires batch.Valid() && t < batch.tokens
    ensures ok <==> batch.InTable(t)
    ensures ok ==> block == batch.Block(t) && slot == batch.SlotOf(t)
  {
    TokenHasPlace(batch.cu, batch.tokens, t);
    var p := PlaceOf(batch.cu, t);
    if Column(p.position, batch.blockSize) >= batch.columns {
      return false, 0, 0;
    }
    ok, block := true, batch.table[p.sequence][Column(p.position, batch.blockSize)];
    slot := Slot(p.position, batch.blockSize);
  }

  /** The blocks and slots of all tokens, unless some position is beyond the table's columns. */
  method Locate(batch: Batch) returns (ok: bool, blocks: seq<int>, slots: seq<nat>)
    requires batch.Valid()
    ensures ok <==> batch.AllInTable()
    ensures ok ==> |blocks| == |slots| == batch.tokens
    ensures ok ==> forall t :: 0 <= t < batch.tokens ==> blocks[t] == batch.Block(t) && slots[t] == batch.SlotOf(t)
  {
    blocks, slots := [], [];
    for t := 0 to batch.tokens
      invariant |blocks| == |slots| == t
      invariant forall i :: 0 <= i < t ==> batch.InTable(i)
      invariant forall i :: 0 <= i < t ==> blocks[i] == batch.Block(i) && slots[i] == batch.SlotOf(i)
    {
      var block, slot;
      ok, block, slot := LocateToken(batch, t);
      if !ok {
        return;
      }
      blocks, slots := blocks + [block], slots + [slot];
    }
    ok := true;
  }

  method KeyStarts(batch: Batch, blocks: seq<int>, slots: seq<nat>, width: nat) returns (starts: seq<int>)
    requires batch.Valid() && batch.AllInTable() && |blocks| == |slots| == batch.tokens
    requires forall t :: 0 <= t < batch.tokens ==> blocks[t] == batch.Block(t) && slots[t] == batch.SlotOf(t)
    ensures |starts| == batch.tokens
    ensures forall t :: 0 <= t < batch.tokens ==> starts[t] == batch.KeyStart(width, t)
  {
    starts := seq(batch.tokens, t requires 0 <= t < batch.tokens => blocks[t] * batch.stride + slots[t] * width);
  }

  method ScaleStarts(batch: Batch, blocks: seq<int>, slots: seq<nat>, width: nat, scaleSize: nat)
    returns (starts: seq<int>)
    requires batch.Valid() && batch.AllInTable() && |blocks| == |slots| == batch.tokens
    requires forall t :: 0 <= t < batch.tokens ==> blocks[t] == batch.Block(t) && slots[t] == batch.SlotOf(t)
    ensures |starts| == batch.tokens
    ensures forall t :: 0 <= t < batch.tokens ==> starts[t] == batch.ScaleStart(width, scaleSize, t)
  {
    starts := seq(batch.tokens, t requires 0 <= t < batch.tokens =>
      blocks[t] * batch.stride + width + slots[t] * scaleSize);
  }

  /** The size of one row of scales, worked out through the block size of the quantiser: never
      less than the width of the destination, and the same if that divides evenly. */
  function ScaleSize(width: nat, scaleWidth: nat): (r: nat)
    requires 0 < scaleWidth <= width * 4
    ensures r >= scaleWidth
    ensures width * 4 % scaleWidth == 0 ==> r == scaleWidth
  {
    QuotientOfQuotient(width * 4, scaleWidth);
    width * 4 / (width * 4 / scaleWidth)
  }

  lemma QuotientOfQuotient(total: nat, part: nat)
    requires 0 < part <= total
    ensures total / part > 0 && total / (total / part) >= part
    ensures total % part == 0 ==> total / (total / part) == part
  {
    var q := total / part;
    assert total == q * part + total % part;
    var other := total / q;
    assert total == other * q + total % q;
    Apart(other, part, q);
    ProductAtLeast(other - part, q);
  }

  /** How a call ends. The first division by zero comes before anything else, the second when the
      keys have been written. */
  datatype Outcome =
    | Gathered
    | NoScaleColumns
    | ColumnOutOfRange
    | KeyOutOfRange
    | NoQuantBlock
    | ScaleOutOfRange
    | ScaleWrongShape

  /** The way a call ends that copies no scales, for a cache and the widths of the destinations. */
  ghost predicate EndsWith<T>(outcome: Outcome, cache: seq<T>, width: nat, scaleWidth: nat, batch: Batch)
    requires batch.Valid()
  {
    match outcome
    case NoScaleColumns => scaleWidth == 0
    case ColumnOutOfRange => scaleWidth > 0 && !batch.AllInTable()
    case KeyOutOfRange => scaleWidth > 0 && batch.AllInTable() && !batch.KeysReachable(cache, width)
    case NoQuantBlock => KeysDone(cache, width, scaleWidth, batch) && width * 4 < scaleWidth
    case ScaleOutOfRange =>
      KeysDone(cache, width, scaleWidth, batch) && scaleWidth <= width * 4
      && !batch.ScalesReachable(cache, width, ScaleSize(width, scaleWidth))
    case ScaleWrongShape =>
      KeysDone(cache, width, scaleWidth, batch) && scaleWidth <= width * 4
      && batch.ScalesReachable(cache, width, ScaleSize(width, scaleWidth)) && ScaleSize(width, scaleWidth) != scaleWidth
    case Gathered =>
      KeysDone(cache, width, scaleWidth, batch) && scaleWidth <= width * 4
      && batch.ScalesReachable(cache, width, ScaleSize(width, scaleWidth)) && ScaleSize(width, scaleWidth) == scaleWidth
  }

  ghost predicate KeysDone<T>(cache: seq<T>, width: nat, scaleWidth: nat, batch: Batch)
    requires batch.Valid()
  {
    scaleWidth > 0 && batch.AllInTable() && batch.KeysReachable(cache, width)
  }

  /** Every token's keys and scales are copied from the addresses of its place, or the first step
      that fails decides how the call ends; a failure over scales comes too late for the keys. */
  method CpGather<T>(cache: seq<T>, dstK: array2<T>, dstScale: array2<T>, batch: Batch) returns (outcome: Outcome)
    requires batch.Valid() && dstK != dstScale && dstK.Length0 == dstScale.Length0 == batch.tokens
    modifies dstK, dstScale
    ensures EndsWith(outcome, cache, dstK.Length1, dstScale.Length1, batch)
    ensures outcome == Gathered ==>
      forall t :: 0 <= t < batch.tokens ==>
        Copied(cache, batch.ScaleStart(dstK.Length1, dstScale.Length1, t), dstScale, t)
    ensures outcome != Gathered ==> unchanged(dstScale)
    ensures if KeysDone(cache, dstK.Length1, dstScale.Length1, batch)
            then forall t :: 0 <= t < batch.tokens ==> Copied(cache, batch.KeyStart(dstK.Length1, t), dstK, t)
            else unchanged(dstK)
  {
    var width, scaleWidth := dstK.Length1, dstScale.Length1;
    if scaleWidth == 0 {
      return NoScaleColumns;
    }
    var quantBlockSize := width * 4 / scaleWidth;
    var ok, blocks, slots := Locate(batch);
    if !ok {
      return ColumnOutOfRange;
    }
    var starts := KeyStarts(batch, blocks, slots, width);
    var result := CopyRows(cache, starts, width, dstK);
    if result == OutOfRange {
      return KeyOutOfRange;
    }
    if quantBlockSize == 0 {
      return NoQuantBlock;
    }
    var scaleSize := ScaleSize(width, scaleWidth);
    starts := ScaleStarts(batch, blocks, slots, width, scaleSize);
    result := CopyRows(cache, starts, scaleSize, dstScale);
    outcome := match result
      case AllCopied => Gathered
      case OutOfRange => ScaleOutOfRange
      case WrongShape => ScaleWrongShape;
  }
}
