/** Byte orders of device registers, applied in place to a copy, and the conversion of raw
    bytes to values. */
module ByteOrders {

  type byte = b: int | 0 <= b < 256

  /** The empty order means big-endian; `UnknownOrder` stands for every other text. */
  datatype ByteOrder = Unspecified | BigEndian | LittleEndian | WordSwap | ByteSwap | UnknownOrder

  /** The place from which each order takes the byte for place `i` of `n`. */
  function Source(order: ByteOrder, n: nat, i: nat): (k: nat)
    requires i < n && n % 2 == 0
    ensures k < n
  {
    match order
    case LittleEndian => n - 1 - i
    case WordSwap => n - 2 - i + 2 * (i % 2)
    case ByteSwap => if i % 2 == 0 then i + 1 else i - 1
    case _ => i
  }

  function Ordered(s: seq<byte>, order: ByteOrder): (r: seq<byte>)
    requires |s| % 2 == 0
    ensures |r| == |s| && forall i :: 0 <= i < |s| ==> r[i] == s[Source(order, |s|, i)]
  {
    seq(|s|, i requires 0 <= i < |s| => s[Source(order, |s|, i)])
  }

  lemma Parity(half: nat, bit: nat)
    requires bit < 2
    ensures (2 * half + bit) % 2 == bit
  {
  }

  lemma WordSource(m: nat, half: nat, bit: nat)
    requires half < m && bit < 2
    ensures Source(WordSwap, 2 * m, 2 * half + bit) == 2 * (m - 1 - half) + bit
  {
    Parity(half, bit);
    Parity(m - 1 - half, bit);
  }

  /** An order's places are a permutation, and its own inverse. */
  lemma SourceTwice(order: ByteOrder, n: nat, i: nat)
    requires i < n && n % 2 == 0
    ensures Source(order, n, Source(order, n, i)) == i
  {
    if order == WordSwap {
      WordSource(n / 2, i / 2, i % 2);
    } else if order == ByteSwap {
      Parity(i / 2, 1 - i % 2);
    }
  }

  lemma SourceOfBoth(n: nat, i: nat)
    requires i < n && n % 2 == 0
    ensures Source(LittleEndian, n, i) == Source(ByteSwap, n, Source(WordSwap, n, i))
    ensures Source(LittleEndian, n, i) == Source(WordSwap, n, Source(ByteSwap, n, i))
  {
    var half, bit := i / 2, i % 2;
    WordSource(n / 2, half, bit);
    Parity(n / 2 - 1 - half, bit);
    Parity(half, 1 - bit);
    WordSource(n / 2, half, 1 - bit);
  }

  /** Applying an order twice restores every buffer. */
  lemma OrderIsInvolution(s: seq<byte>, order: ByteOrder)
    requires |s| % 2 == 0
    ensures Ordered(Ordered(s, order), order) == s
  {
    var once := Ordered(s, order);
    var twice := Ordered(once, order);
    forall i | 0 <= i < |s| ensures twice[i] == s[i] {
      SourceTwice(order, |s|, i);
      assert twice[i] == once[Source(order, |s|, i)];
    }
  }

  /** Little-endian is the word swap of the byte swap, and the byte swap of the word swap. */
  lemma LittleEndianIsBothSwaps(s: seq<byte>)
    requires |s| % 2 == 0
    ensures Ordered(s, LittleEndian) == Ordered(Ordered(s, ByteSwap), WordSwap)
    ensures Ordered(s, LittleEndian) == Ordered(Ordered(s, WordSwap), ByteSwap)
  {
    var bytes, words, little := Ordered(s, ByteSwap), Ordered(s, WordSwap), Ordered(s, LittleEndian);
    var first, second := Ordered(bytes, WordSwap), Ordered(words, ByteSwap);
    forall i | 0 <= i < |s| ensures little[i] == first[i] && little[i] == second[i] {
      SourceOfBoth(|s|, i);
      assert first[i] == bytes[Source(WordSwap, |s|, i)];
      assert second[i] == words[Source(ByteSwap, |s|, i)];
    }
  }

  // ---------------------------------------------------------------- in place

  method Exchange(a: array<byte>, i: nat, j: nat)
    requires i < a.Length && j < a.Length
    modifies a
    ensures a[i] == old(a[j]) && a[j] == old(a[i])
    ensures forall k :: 0 <= k < a.Length && k != i && k != j ==> a[k] == old(a[k])
    ensures multiset(a[..]) == multiset(old(a[..]))
  {
    a[i], a[j] := a[j], a[i];
  }

  method ReverseBytes(a: array<byte>)
    modifies a
    ensures forall k :: 0 <= k < a.Length ==> a[k] == old(a[..])[a.Length - 1 - k]
    ensures multiset(a[..]) == multiset(old(a[..]))
  {
    ghost var was := a[..];
    var left, right := 0, a.Length - 1;
    while left < right
      invariant 0 <= left && left + right == a.Length - 1 && left <= right + 1
      invariant forall k :: left <= k <= right ==> a[k] == was[k]
      invariant forall k :: 0 <= k < left ==> a[k] == was[a.Length - 1 - k]
      invariant forall k :: right < k < a.Length ==> a[k] == was[a.Length - 1 - k]
      invariant multiset(a[..]) == multiset(was)
    {
      Exchange(a, left, right);
      left, right := left + 1, right - 1;
    }
  }

  /** The words outside [left, right] have been swapped. */
  ghost predicate WordsDone(s: seq<byte>, was: seq<byte>, left: int, right: int)
    requires |was| % 2 == 0
  {
    && |s| == |was| && multiset(s) == multiset(was)
    && forall k :: 0 <= k < |s| ==>
         s[k] == if left <= k <= right + 1 then was[k] else was[Source(WordSwap, |was|, k)]
  }

  method ExchangeWords(a: array<byte>, left: nat, right: nat)
    requires left + 2 <= right && right + 1 < a.Length
    modifies a
    ensures a[left] == old(a[right]) && a[right] == old(a[left])
    ensures a[left + 1] == old(a[right + 1]) && a[right + 1] == old(a[left + 1])
    ensures forall k :: 0 <= k < a.Length && k !in {left, left + 1, right, right + 1} ==> a[k] == old(a[k])
    ensures multiset(a[..]) == multiset(old(a[..]))
  {
    Exchange(a, left, right);
    Exchange(a, left + 1, right + 1);
  }

  method SwapWords(a: array<byte>)
    requires a.Length % 2 == 0
    modifies a
    ensures a[..] == Ordered(old(a[..]), WordSwap) && multiset(a[..]) == multiset(old(a[..]))
  {
    ghost var was := a[..];
    var left, right := 0, a.Length - 2;
    ghost var words, half := 0, a.Length / 2;
    while left < right
      invariant left == 2 * words && right == 2 * (half - 1 - words) && 0 <= words <= half - words
      invariant WordsDone(a[..], was, left, right)
    {
      ghost var before := a[..];
      ExchangeWords(a, left, right);
      WordStep(before, a[..], was, left, right);
      left, right, words := left + 2, right - 2, words + 1;
    }
    AllWordsDone(a[..], was, left, right);
  }

  lemma WordStep(s: seq<byte>, t: seq<byte>, was: seq<byte>, left: nat, right: nat)
    requires |was| % 2 == 0 && WordsDone(s, was, left, right)
    requires left % 2 == 0 && left + right == |was| - 2 && left + 2 <= right
    requires |t| == |s| && multiset(t) == multiset(s)
    requires t[left] == s[right] && t[right] == s[left] && t[left + 1] == s[right + 1] && t[right + 1] == s[left + 1]
    requires forall k :: 0 <= k < |s| && k !in {left, left + 1, right, right + 1} ==> t[k] == s[k]
    ensures WordsDone(t, was, left + 2, right - 2)
  {
    WordPlaces(|was|, left, right);
  }

  lemma AllWordsDone(s: seq<byte>, was: seq<byte>, left: int, right: int)
    requires |was| % 2 == 0 && WordsDone(s, was, left, right)
    requires left % 2 == 0 && left + right == |was| - 2 && right <= left
    ensures s == Ordered(was, WordSwap)
  {
    var r := Ordered(was, WordSwap);
    forall k | 0 <= k < |s| ensures s[k] == r[k] {
      if left <= k <= right + 1 {
        WordPlaces(|was|, left, right);
      }
    }
  }

  lemma WordPlaces(n: nat, left: nat, right: nat)
    requires n % 2 == 0 && left % 2 == 0 && left + right == n - 2
    ensures Source(WordSwap, n, left) == right && Source(WordSwap, n, left + 1) == right + 1
    ensures Source(WordSwap, n, right) == left && Source(WordSwap, n, right + 1) == left + 1
  {
    var half, m := left / 2, n / 2;
    Parity(m - 1 - half, 0);
    WordSource(m, half, 0);
    WordSource(m, half, 1);
    WordSource(m, m - 1 - half, 0);
    WordSource(m, m - 1 - half, 1);
  }

  method SwapBytes(a: array<byte>)
    requires a.Length % 2 == 0
    modifies a
    ensures a[..] == Ordered(old(a[..]), ByteSwap) && multiset(a[..]) == multiset(old(a[..]))
  {
    ghost var was := a[..];
    var index := 0;
    ghost var pairs, left := 0, a.Length / 2;
    while index < a.Length
      invariant index == 2 * pairs && index + 2 * left == a.Length && 0 <= left
      invariant PairsDone(a[..], was, index)
    {
      SwapPair(a, index, was, pairs);
      index, pairs, left := index + 2, pairs + 1, left - 1;
    }
    AllPairsDone(a[..], was);
  }

  method SwapPair(a: array<byte>, index: nat, ghost was: seq<byte>, ghost pairs: nat)
    requires index == 2 * pairs && index + 1 < a.Length
    requires |was| % 2 == 0 && PairsDone(a[..], was, index)
    modifies a
    ensures PairsDone(a[..], was, index + 2)
  {
    ghost var before := a[..];
    Exchange(a, index, index + 1);
    PairStep(before, a[..], was, index, pairs);
  }

  /** The pairs before `index` have been swapped. */
  ghost predicate PairsDone(s: seq<byte>, was: seq<byte>, index: int)
    requires |was| % 2 == 0
  {
    && |s| == |was| && multiset(s) == multiset(was)
    && forall k {:trigger s[k]} :: 0 <= k < |s| ==>
         s[k] == if k < index then was[Source(ByteSwap, |was|, k)] else was[k]
  }

  lemma PairStep(s: seq<byte>, t: seq<byte>, was: seq<byte>, index: nat, pairs: nat)
    requires |was| % 2 == 0 && index == 2 * pairs && index + 1 < |was| && PairsDone(s, was, index)
    requires |t| == |s| && multiset(t) == multiset(s) && t[index] == s[index + 1] && t[index + 1] == s[index]
    requires forall k :: 0 <= k < |s| && k != index && k != index + 1 ==> t[k] == s[k]
    ensures PairsDone(t, was, index + 2)
  {
    Parity(pairs, 0);
    Parity(pairs, 1);
  }

  lemma AllPairsDone(s: seq<byte>, was: seq<byte>)
    requires |was| % 2 == 0 && PairsDone(s, was, |was|)
    ensures s == Ordered(was, ByteSwap)
  {
  }

  datatype Error = InvalidConversion | InsufficientData | NonFinite

  datatype Result<T> = Ok(value: T) | Err(error: Error)

  method ApplyByteOrder(raw: seq<byte>, order: ByteOrder) returns (r: Result<seq<byte>>)
    ensures r == if |raw| % 2 != 0 || order == UnknownOrder then Err(InvalidConversion) else Ok(Ordered(raw, order))
    ensures r.Ok? ==> multiset(r.value) == multiset(raw)
  {
    if |raw| % 2 != 0 {
      return Err(InvalidConversion);
    }
    var ordered := new byte[|raw|](i requires 0 <= i < |raw| => raw[i]);
    assert ordered[..] == raw;
    match order {
      case LittleEndian =>
        ReverseBytes(ordered);
        assert ordered[..] == Ordered(raw, order);
      case WordSwap => SwapWords(ordered);
      case ByteSwap => SwapBytes(ordered);
      case UnknownOrder => return Err(InvalidConversion);
      case _ => assert ordered[..] == Ordered(raw, order);
    }
    return Ok(ordered[..]);
  }
}
