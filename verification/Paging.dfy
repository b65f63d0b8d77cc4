/** server/paging.go: the result cache keyed by the query. Strings are byte sequences. */
module Paging {
  import opened Sequences
  import opened Sorting
  import opened Counting

  type Byte = b: nat | b < 0x100

  type Text = seq<Byte>

  datatype Request = Request(positive: seq<Text>, negative: seq<Text>)

  /*---------- The key ----------*/

  /** uint32. */
  type Word = n: nat | n < 0x1_0000_0000

  /** A hasher fed byte by byte. The laws below hold for every one of them. */
  datatype Hasher = Hasher(start: Word, step: (Word, Byte) -> Word) {
    function Write(h: Word, bytes: Text): Word {
      FoldLeft(step, h, bytes)
    }

    function Sum(bytes: Text): Word {
      Write(start, bytes)
    }
  }

  const FNV_OFFSET: Word := 2166136261
  const FNV_PRIME := 16777619

  function Pow2(k: nat): (r: nat)
    ensures r > 0
  {
    if k == 0 then 1 else 2 * Pow2(k - 1)
  }

  /** Exclusive or of two numbers of k bits, bit by bit. */
  function Xor(k: nat, a: nat, b: nat): (r: nat)
    requires a < Pow2(k) && b < Pow2(k)
    ensures r < Pow2(k)
  {
    if k == 0 then 0 else 2 * Xor(k - 1, a / 2, b / 2) + if a % 2 == b % 2 then 0 else 1
  }

  /** The 32-bit FNV-1a step: the exclusive or reaches only the low byte, and the product
      wraps around. */
  function Fnv1aStep(h: Word, byte: Byte): Word {
    (Mix(h, byte) * FNV_PRIME) % 0x1_0000_0000
  }

  function Mix(h: Word, byte: Byte): Word {
    assert Pow2(8) == 0x100;
    h - h % 0x100 + Xor(8, h % 0x100, byte)
  }

  /** fnv.New32a. */
  function Fnv1a(): Hasher {
    Hasher(FNV_OFFSET, Fnv1aStep)
  }

  /** strconv.Itoa of a natural number. */
  function Itoa(n: nat): string {
    var digit := ['0' + (n % 10) as char];
    if n < 10 then digit else Itoa(n / 10) + digit
  }

  function ParseDigits(s: string): int {
    if s == [] then 0 else 10 * ParseDigits(s[..|s| - 1]) + (s[|s| - 1] as int - '0' as int)
  }

  lemma {:induction false} ItoaInverse(n: nat)
    ensures Itoa(n) != [] && ParseDigits(Itoa(n)) == n
  {
    if n < 10 {
      assert Itoa(n)[..0] == [];
    } else {
      ItoaInverse(n / 10);
      assert Itoa(n)[..|Itoa(n)| - 1] == Itoa(n / 10);
    }
  }

  /** Bytewise lexicographic order. */
  predicate LexLeq(a: Text, b: Text) {
    a == [] || (b != [] && (a[0] < b[0] || (a[0] == b[0] && LexLeq(a[1..], b[1..]))))
  }

  lemma {:induction false} LexTotal(a: Text, b: Text)
    ensures LexLeq(a, b) || LexLeq(b, a)
    ensures LexLeq(a, b) && LexLeq(b, a) ==> a == b
  {
    if a != [] && b != [] {
      LexTotal(a[1..], b[1..]);
      assert a == [a[0]] + a[1..] && b == [b[0]] + b[1..];
    }
  }

  lemma {:induction false} LexTransitive(a: Text, b: Text, c: Text)
    requires LexLeq(a, b) && LexLeq(b, c)
    ensures LexLeq(a, c)
  {
    if a != [] && a[0] == b[0] && b[0] == c[0] {
      LexTransitive(a[1..], b[1..], c[1..]);
    }
  }

  /** The order of a dictionary: a proper beginning comes first, otherwise the first byte that
      differs decides. */
  lemma {:induction false} LexIsDictionaryOrder(a: Text, b: Text)
    ensures LexLeq(a, b) <==>
      || a <= b
      || exists i :: 0 <= i < |a| && i < |b| && a[..i] == b[..i] && a[i] < b[i]
  {
    if a != [] && b != [] && a[0] == b[0] {
      var x, y := a[1..], b[1..];
      LexIsDictionaryOrder(x, y);
      assert a == [a[0]] + x && b == [b[0]] + y;
      if i :| 0 <= i < |x| && i < |y| && x[..i] == y[..i] && x[i] < y[i] {
        assert a[..i + 1] == [a[0]] + x[..i] && b[..i + 1] == [b[0]] + y[..i];
        assert a[i + 1] < b[i + 1];
      }
      if i :| 0 <= i < |a| && i < |b| && a[..i] == b[..i] && a[i] < b[i] {
        assert i > 0 && a[..i][1..] == x[..i - 1] && b[..i][1..] == y[..i - 1];
        assert x[i - 1] < y[i - 1];
      }
      if a <= b {
        assert x == b[1..|a|] == y[..|x|];
      }
    } else if a != [] && b != [] {
      assert a[..0] == b[..0];
      if a[0] > b[0] {
        forall i | 0 < i < |a| && i < |b| ensures a[..i] != b[..i] {
          assert a[..i][0] != b[..i][0];
        }
      }
    }
  }

  lemma {:induction false} LexIsTotalOrder()
    ensures TotalOrder(LexLeq)
  {
    forall a, b ensures (LexLeq(a, b) || LexLeq(b, a)) && (LexLeq(a, b) && LexLeq(b, a) ==> a == b) {
      LexTotal(a, b);
    }
    forall a, b, c | LexLeq(a, b) && LexLeq(b, c) ensures LexLeq(a, c) {
      LexTransitive(a, b, c);
    }
  }

  function Ordered(texts: seq<Text>): seq<Text> {
    InsertionSort(texts, LexLeq)
  }

  /** The bytes that are hashed: the sorted positives, then the sorted negatives, with
      nothing in between. */
  function Hashed(r: Request): Text {
    Flatten(Ordered(r.positive)) + Flatten(Ordered(r.negative))
  }

  function KeyOf(hasher: Hasher, r: Request): string {
    Itoa(hasher.Sum(Hashed(r)))
  }

  method SortStrings(texts: seq<Text>) returns (r: seq<Text>)
    ensures r == Ordered(texts)
  {
    LexIsTotalOrder();
    r := Sort(texts, LexLeq);
    InsertionSorts(texts, LexLeq);
    SortedIsUnique(r, Ordered(texts), LexLeq);
  }

  /** Writes the strings one after the other. */
  method WriteAll(hasher: Hasher, h: Word, texts: seq<Text>) returns (r: Word)
    ensures r == hasher.Write(h, Flatten(texts))
  {
    r := h;
    for i := 0 to |texts|
      invariant r == hasher.Write(h, Flatten(texts[..i]))
    {
      PrefixStep(texts, i);
      FoldConcat(hasher.step, h, Flatten(texts[..i]), texts[i]);
      r := hasher.Write(r, texts[i]);
    }
    assert texts[..|texts|] == texts;
  }

  /** The same texts in dictionary order. */
  ghost predicate Sorts(sorted: seq<Text>, texts: seq<Text>) {
    SortedBy(sorted, LexLeq) && multiset(sorted) == multiset(texts)
  }

  method HashQuery(hasher: Hasher, r: Request) returns (key: string)
    ensures key == KeyOf(hasher, r)
    ensures forall p: seq<Text>, n: seq<Text> :: Sorts(p, r.positive) && Sorts(n, r.negative) ==>
      key == Itoa(FoldLeft(hasher.step, hasher.start, Flatten(p) + Flatten(n)))
  {
    var positive := SortStrings(r.positive);
    var negative := SortStrings(r.negative);
    var h := WriteAll(hasher, hasher.start, positive);
    h := WriteAll(hasher, h, negative);
    FoldConcat(hasher.step, hasher.start, Flatten(positive), Flatten(negative));
    key := Itoa(h);
    forall p: seq<Text>, n: seq<Text> | Sorts(p, r.positive) && Sorts(n, r.negative)
      ensures KeyOf(hasher, r) == Itoa(FoldLeft(hasher.step, hasher.start, Flatten(p) + Flatten(n)))
    {
      KeyIsHashOfSorted(hasher, r, p, n);
    }
  }

  lemma {:induction false} OrderedSorts(texts: seq<Text>)
    ensures Sorts(Ordered(texts), texts)
    ensures forall p :: Sorts(p, texts) ==> p == Ordered(texts)
  {
    LexIsTotalOrder();
    InsertionSorts(texts, LexLeq);
    forall p | Sorts(p, texts) ensures p == Ordered(texts) {
      SortedIsUnique(p, Ordered(texts), LexLeq);
    }
  }

  /** However they are sorted, the key is the hash of the bytes of the positives and then of the
      negatives. */
  lemma {:induction false} KeyIsHashOfSorted(hasher: Hasher, r: Request, p: seq<Text>, n: seq<Text>)
    requires Sorts(p, r.positive) && Sorts(n, r.negative)
    ensures KeyOf(hasher, r) == Itoa(FoldLeft(hasher.step, hasher.start, Flatten(p) + Flatten(n)))
  {
    OrderedSorts(r.positive);
    OrderedSorts(r.negative);
  }

  /** The same examples in any order. */
  ghost predicate Reordered(r: Request, s: Request) {
    multiset(r.positive) == multiset(s.positive) && multiset(r.negative) == multiset(s.negative)
  }

  /** The key is canonical. */
  lemma {:induction false} KeyIgnoresOrder(hasher: Hasher, r: Request, s: Request)
    requires multiset(r.positive) == multiset(s.positive) && multiset(r.negative) == multiset(s.negative)
    ensures KeyOf(hasher, r) == KeyOf(hasher, s)
  {
    LexIsTotalOrder();
    InsertionSorts(r.positive, LexLeq);
    InsertionSorts(s.positive, LexLeq);
    InsertionSorts(r.negative, LexLeq);
    InsertionSorts(s.negative, LexLeq);
    SortedIsUnique(Ordered(r.positive), Ordered(s.positive), LexLeq);
    SortedIsUnique(Ordered(r.negative), Ordered(s.negative), LexLeq);
  }

  /** Keys are equal exactly when the hashes are, and a key is never empty. */
  lemma {:induction false} KeysAreHashes(hasher: Hasher, r: Request, s: Request)
    ensures KeyOf(hasher, r) != []
    ensures KeyOf(hasher, r) == KeyOf(hasher, s) <==> hasher.Sum(Hashed(r)) == hasher.Sum(Hashed(s))
  {
    ItoaInverse(hasher.Sum(Hashed(r)));
    ItoaInverse(hasher.Sum(Hashed(s)));
  }

  /*---------- What FNV-1a keeps apart ----------*/

  /** The inverse of the prime modulo 2^32. */
  const FNV_INVERSE := 899433627

  lemma {:induction false} PrimeCancels(u: Word, v: Word)
    requires (u * FNV_PRIME) % 0x1_0000_0000 == (v * FNV_PRIME) % 0x1_0000_0000
    ensures u == v
  {
    var k := (u * FNV_PRIME) / 0x1_0000_0000 - (v * FNV_PRIME) / 0x1_0000_0000;
    assert (u - v) * FNV_PRIME == k * 0x1_0000_0000;
    assert FNV_PRIME * FNV_INVERSE == 3513497 * 0x1_0000_0000 + 1;
    assert u - v == 0x1_0000_0000 * (k * FNV_INVERSE - 3513497 * (u - v));
    MultipleIsLarge(0x1_0000_0000, k * FNV_INVERSE - 3513497 * (u - v));
  }

  lemma {:induction false} XorCancels(k: nat, a: nat, b: nat, c: nat)
    requires a < Pow2(k) && b < Pow2(k) && c < Pow2(k) && Xor(k, a, b) == Xor(k, a, c)
    ensures b == c
  {
    if k > 0 {
      assert b % 2 == c % 2;
      XorCancels(k - 1, a / 2, b / 2, c / 2);
    }
  }

  lemma {:induction false} XorCommutes(k: nat, a: nat, b: nat)
    requires a < Pow2(k) && b < Pow2(k)
    ensures Xor(k, a, b) == Xor(k, b, a)
  {
    if k > 0 {
      XorCommutes(k - 1, a / 2, b / 2);
    }
  }

  lemma {:induction false} MixParts(h: Word, byte: Byte)
    ensures Pow2(8) == 0x100
    ensures Mix(h, byte) / 0x100 == h / 0x100 && Mix(h, byte) % 0x100 == Xor(8, h % 0x100, byte)
  {
    assert Pow2(8) == 0x100;
  }

  lemma {:induction false} MixIsInjective(g: Word, x: Byte, h: Word, y: Byte)
    requires Mix(g, x) == Mix(h, y)
    ensures g == h <==> x == y
  {
    MixParts(g, x);
    MixParts(h, y);
    if g == h {
      XorCancels(8, g % 0x100, x, y);
    }
    if x == y {
      LowBytesAgree(g % 0x100, h % 0x100, x);
    }
  }

  lemma {:induction false} LowBytesAgree(u: Byte, v: Byte, x: Byte)
    requires Pow2(8) == 0x100 && Xor(8, u, x) == Xor(8, v, x)
    ensures u == v
  {
    XorCommutes(8, u, x);
    XorCommutes(8, v, x);
    XorCancels(8, x, u, v);
  }

  /** A step loses neither the byte nor the state. */
  lemma {:induction false} StepIsInjective(g: Word, x: Byte, h: Word, y: Byte)
    ensures Fnv1aStep(g, x) == Fnv1aStep(h, y) ==> (g == h <==> x == y)
  {
    if Fnv1aStep(g, x) == Fnv1aStep(h, y) {
      PrimeCancels(Mix(g, x), Mix(h, y));
      MixIsInjective(g, x, h, y);
    }
  }

  lemma {:induction false} TailKeepsApart(g: Word, h: Word, tail: Text)
    requires g != h
    ensures FoldLeft(Fnv1aStep, g, tail) != FoldLeft(Fnv1aStep, h, tail)
  {
    if tail != [] {
      var n := |tail| - 1;
      TailKeepsApart(g, h, tail[..n]);
      if FoldLeft(Fnv1aStep, g, tail) == FoldLeft(Fnv1aStep, h, tail) {
        StepIsInjective(FoldLeft(Fnv1aStep, g, tail[..n]), tail[n], FoldLeft(Fnv1aStep, h, tail[..n]), tail[n]);
      }
    }
  }

  /** Texts that differ in one byte, wherever it stands, have different hashes. */
  lemma {:induction false} OneByteChangesHash(before: Text, x: Byte, y: Byte, tail: Text)
    requires x != y
    ensures Fnv1a().Sum(before + [x] + tail) != Fnv1a().Sum(before + [y] + tail)
  {
    var h := FoldLeft(Fnv1aStep, FNV_OFFSET, before);
    FoldConcat(Fnv1aStep, FNV_OFFSET, before + [x], tail);
    FoldConcat(Fnv1aStep, FNV_OFFSET, before + [y], tail);
    assert (before + [x])[..|before|] == before && (before + [y])[..|before|] == before;
    if Fnv1aStep(h, x) == Fnv1aStep(h, y) {
      StepIsInjective(h, x, h, y);
    }
    TailKeepsApart(Fnv1aStep(h, x), Fnv1aStep(h, y), tail);
  }

  /** So requests whose sorted examples differ in a single byte never share an entry. */
  lemma {:induction false} OneByteChangesKey(r: Request, p: seq<Text>, n: seq<Text>,
                                            r': Request, p': seq<Text>, n': seq<Text>,
                                            before: Text, x: Byte, y: Byte, tail: Text)
    requires Sorts(p, r.positive) && Sorts(n, r.negative) && Flatten(p) + Flatten(n) == before + [x] + tail
    requires Sorts(p', r'.positive) && Sorts(n', r'.negative) && Flatten(p') + Flatten(n') == before + [y] + tail
    requires x != y
    ensures KeyOf(Fnv1a(), r) != KeyOf(Fnv1a(), r')
  {
    OrderedSorts(r.positive);
    OrderedSorts(r.negative);
    OrderedSorts(r'.positive);
    OrderedSorts(r'.negative);
    KeysAreHashes(Fnv1a(), r, r');
    OneByteChangesHash(before, x, y, tail);
  }

  lemma {:induction false} XorOfA()
    ensures Pow2(8) == 0x100 && Xor(8, 0xC5, 97) == 0xA4
  {
    assert Pow2(4) == 16 && Xor(4, 0xC, 6) == 0xA;
    assert Pow2(6) == 64 && Xor(6, 0x31, 24) == 0x29;
  }

  /** The known hash of the text "a". */
  lemma {:induction false} HashOfA()
    ensures Fnv1a().Sum([97]) == 3826002220
  {
    XorOfA();
    assert FNV_OFFSET % 0x100 == 0xC5 && Mix(FNV_OFFSET, 97) == 2166136228;
    assert Fnv1aStep(FNV_OFFSET, 97) == 3826002220;
    var a: Text := [97];
    assert a[..0] == [] && FoldLeft(Fnv1aStep, FNV_OFFSET, a[..0]) == FNV_OFFSET;
  }

  lemma {:induction false} KeyOfA()
    ensures KeyOf(Fnv1a(), Request([[97]], [])) == "3826002220"
  {
    var a: Text := [97];
    OrderedOne(a);
    FlattenOne(a);
    HashOfA();
    assert Hashed(Request([a], [])) == a;
    ItoaOfHash();
  }

  lemma {:induction false} ItoaOfHash()
    ensures Itoa(3826002220) == "3826002220"
  {
    ItoaNext(3, 8);
    ItoaNext(38, 2);
    ItoaNext(382, 6);
    ItoaNext(3826, 0);
    ItoaNext(38260, 0);
    ItoaNext(382600, 2);
    ItoaNext(3826002, 2);
    ItoaNext(38260022, 2);
    ItoaNext(382600222, 0);
  }

  lemma {:induction false} ItoaNext(n: nat, digit: nat)
    requires n > 0 && digit < 10
    ensures Itoa(10 * n + digit) == Itoa(n) + ['0' + digit as char]
  {
  }

  /*---------- The cache ----------*/

  datatype Entry = Entry(entities: seq<string>, scores: seq<real>, totalEntities: nat)

  datatype Item = Item(entry: Entry, expiration: nat)

  datatype Lookup = Found(entry: Entry) | NotFound

  /** Five minutes in nanoseconds. */
  const DEFAULT_EXPIRATION: nat := 300_000_000_000

  type Cache = map<string, Item>

  /** What Get reports; an entry lives up to and including its expiration time. */
  function Peek(items: Cache, key: string, now: nat): Lookup {
    if key in items && now <= items[key].expiration then Found(items[key].entry) else NotFound
  }

  class ResultTable {
    const hasher: Hasher
    var items: Cache
    ghost var history: seq<Event>

    /** The map is what its history has made of it, and the clock has not run backwards. */
    ghost predicate ValidAt(now: nat)
      reads this
    {
      items == After(hasher, history) && InTime(history, now)
    }

    constructor ()
      ensures history == [] && ValidAt(0) && hasher == Fnv1a()
    {
      hasher, items, history := Fnv1a(), map[], [];
    }

    /** From now on the query's key names these results; all other keys are as before. */
    method CacheResults(request: Request, results: seq<string>, scores: seq<real>, now: nat) returns (key: string)
      requires ValidAt(now)
      modifies this
      ensures ValidAt(now) && key == KeyOf(hasher, request)
      ensures history == old(history) + [Store(request, Entry(results, scores, |results|), now)]
      ensures LastStored(hasher, history, key) == Some((Entry(results, scores, |results|), now))
      ensures forall k :: k != key ==> LastStored(hasher, history, k) == LastStored(hasher, old(history), k)
    {
      key := HashQuery(hasher, request);
      SetDefault(request, key, Entry(results, scores, |results|), now);
    }

    /** The cache's Set with the default expiration. */
    method SetDefault(ghost request: Request, key: string, entry: Entry, now: nat)
      requires ValidAt(now) && key == KeyOf(hasher, request)
      modifies this
      ensures ValidAt(now) && history == old(history) + [Store(request, entry, now)]
      ensures LastStored(hasher, history, key) == Some((entry, now))
      ensures forall k :: k != key ==> LastStored(hasher, history, k) == LastStored(hasher, old(history), k)
    {
      ghost var e := Store(request, entry, now);
      StoreStep(hasher, history, request, entry, now);
      items := items[key := Item(entry, now + DEFAULT_EXPIRATION)];
      history := history + [e];
    }

    /** The results last stored under the key in the table's whole life. */
    method FetchResults(key: string, now: nat) returns (r: Lookup)
      requires ValidAt(now)
      ensures r == Unexpired(LastStored(hasher, history, key), now)
    {
      LookupIsLastStored(hasher, history, key, now);
      if key in items && !(now > items[key].expiration) {
        return Found(items[key].entry);
      } else {
        return NotFound;
      }
    }

    /** The results last stored for this query or for any reordering of it. */
    method FetchResultsWithQuery(request: Request, now: nat) returns (r: Lookup)
      requires ValidAt(now)
      ensures forall s :: Reordered(s, request) ==> r == Unexpired(LastStored(hasher, history, KeyOf(hasher, s)), now)
    {
      var key := HashQuery(hasher, request);
      r := FetchResults(key, now);
      forall s | Reordered(s, request) ensures KeyOf(hasher, s) == key {
        KeyIgnoresOrder(hasher, s, request);
      }
    }

    /** From now on this key names nothing; all other keys are as before. */
    method InvalidateResults(key: string, now: nat)
      requires ValidAt(now)
      modifies this
      ensures ValidAt(now) && history == old(history) + [Invalidate(key, now)]
      ensures LastStored(hasher, history, key) == None
      ensures forall k :: k != key ==> LastStored(hasher, history, k) == LastStored(hasher, old(history), k)
    {
      AfterStep(hasher, history, Invalidate(key, now));
      items := items - {key};
      history := history + [Invalidate(key, now)];
    }

    /** The cache's own clean-up, at any time; no lookup can tell. */
    method DeleteExpired(now: nat)
      requires ValidAt(now)
      modifies this
      ensures ValidAt(now) && history == old(history) + [Sweep(now)]
      ensures forall k :: LastStored(hasher, history, k) == LastStored(hasher, old(history), k)
    {
      AfterStep(hasher, history, Sweep(now));
      items := map key | key in items && now <= items[key].expiration :: items[key];
      history := history + [Sweep(now)];
    }
  }

  /*---------- Runs of the cache ----------*/

  datatype Event =
    | Store(request: Request, entry: Entry, at: nat)
    | Invalidate(key: string, at: nat)
    | Sweep(at: nat)

  function Apply(hasher: Hasher, items: Cache, e: Event): Cache {
    match e
    case Store(request, entry, at) => items[KeyOf(hasher, request) := Item(entry, at + DEFAULT_EXPIRATION)]
    case Invalidate(key, at) => items - {key}
    case Sweep(at) => map key | key in items && at <= items[key].expiration :: items[key]
  }

  function After(hasher: Hasher, run: seq<Event>): Cache {
    if run == [] then map[] else Apply(hasher, After(hasher, run[..|run| - 1]), run[|run| - 1])
  }

  /** How one event changes what is stored under a key. */
  function LastAfter(hasher: Hasher, last: Option<(Entry, nat)>, e: Event, key: string): Option<(Entry, nat)> {
    match e
    case Store(request, entry, at) => if KeyOf(hasher, request) == key then Some((entry, at)) else last
    case Invalidate(k, at) => if k == key then None else last
    case Sweep(at) => last
  }

  /** The last entry stored under the key and not invalidated since, with the time of storing. */
  function LastStored(hasher: Hasher, run: seq<Event>, key: string): Option<(Entry, nat)> {
    if run == [] then None
    else LastAfter(hasher, LastStored(hasher, run[..|run| - 1], key), run[|run| - 1], key)
  }

  /** One more event. */
  lemma {:induction false} AfterStep(hasher: Hasher, run: seq<Event>, e: Event)
    ensures After(hasher, run + [e]) == Apply(hasher, After(hasher, run), e)
    ensures forall k :: LastStored(hasher, run + [e], k) == LastAfter(hasher, LastStored(hasher, run, k), e, k)
    ensures InTime(run, e.at) ==> InTime(run + [e], e.at)
  {
    assert (run + [e])[..|run|] == run;
  }

  lemma {:induction false} StoreStep(hasher: Hasher, run: seq<Event>, r: Request, entry: Entry, at: nat)
    ensures var key, longer := KeyOf(hasher, r), run + [Store(r, entry, at)];
      && After(hasher, longer) == After(hasher, run)[key := Item(entry, at + DEFAULT_EXPIRATION)]
      && LastStored(hasher, longer, key) == Some((entry, at))
      && (forall k :: k != key ==> LastStored(hasher, longer, k) == LastStored(hasher, run, k))
      && (InTime(run, at) ==> InTime(longer, at))
  {
    AfterStep(hasher, run, Store(r, entry, at));
  }

  /** Events happen one after the other, the last one not after now. */
  ghost predicate InTime(run: seq<Event>, now: nat) {
    && (forall i, j :: 0 <= i < j < |run| ==> run[i].at <= run[j].at)
    && (forall i :: 0 <= i < |run| ==> run[i].at <= now)
  }

  /** What the map holds for a key is the last stored entry; it is missing only when there is
      none or it has expired. */
  ghost predicate Tracks(items: Cache, key: string, last: Option<(Entry, nat)>, now: nat) {
    match last
    case None => key !in items
    case Some((entry, at)) =>
      if key in items then items[key] == Item(entry, at + DEFAULT_EXPIRATION) else at + DEFAULT_EXPIRATION < now
  }

  lemma {:induction false} RunTracks(hasher: Hasher, run: seq<Event>, key: string, now: nat)
    requires InTime(run, now)
    ensures Tracks(After(hasher, run), key, LastStored(hasher, run, key), now)
  {
    if run != [] {
      var n := |run| - 1;
      RunTracks(hasher, run[..n], key, run[n].at);
    }
  }

  /** What a lookup reports for the last stored entry. */
  function Unexpired(last: Option<(Entry, nat)>, now: nat): Lookup {
    match last
    case None => NotFound
    case Some((entry, at)) => if now <= at + DEFAULT_EXPIRATION then Found(entry) else NotFound
  }

  /** Over every run, also with clean-ups in between: a lookup finds exactly the entry last
      stored under the key, if it has not been invalidated since and has not expired. */
  lemma {:induction false} LookupIsLastStored(hasher: Hasher, run: seq<Event>, key: string, now: nat)
    requires InTime(run, now)
    ensures Peek(After(hasher, run), key, now) == Unexpired(LastStored(hasher, run, key), now)
  {
    RunTracks(hasher, run, key, now);
  }

  /** None of the events stores or invalidates under the key. */
  ghost predicate Untouched(hasher: Hasher, events: seq<Event>, key: string) {
    forall e :: e in events ==>
      && (e.Store? ==> KeyOf(hasher, e.request) != key)
      && (e.Invalidate? ==> e.key != key)
  }

  /** A query in any order of its examples finds what was stored for it, for as long as nothing
      is stored or invalidated under its key. */
  lemma {:induction false} ReorderedQueryFinds(hasher: Hasher, run: seq<Event>, r: Request, s: Request,
                                              entry: Entry, at: nat, later: seq<Event>, now: nat)
    requires InTime(run + [Store(r, entry, at)] + later, now) && Reordered(r, s)
    requires Untouched(hasher, later, KeyOf(hasher, r))
    ensures Peek(After(hasher, run + [Store(r, entry, at)] + later), KeyOf(hasher, s), now)
         == if now <= at + DEFAULT_EXPIRATION then Found(entry) else NotFound
  {
    KeyIgnoresOrder(hasher, r, s);
    LookupIsLastStored(hasher, run + [Store(r, entry, at)] + later, KeyOf(hasher, s), now);
    LastStoredSkips(hasher, run + [Store(r, entry, at)], later, KeyOf(hasher, r));
    assert (run + [Store(r, entry, at)])[..|run|] == run;
  }

  lemma {:induction false} LastStoredSkips(hasher: Hasher, run: seq<Event>, later: seq<Event>, key: string)
    requires Untouched(hasher, later, key)
    ensures LastStored(hasher, run + later, key) == LastStored(hasher, run, key)
  {
    if later == [] {
      assert run + later == run;
    } else {
      var n := |later| - 1;
      assert (run + later)[..|run + later| - 1] == run + later[..n];
      assert later[n] in later;
      LastStoredSkips(hasher, run, later[..n], key);
    }
  }

  /** An entry can be found for exactly five minutes. */
  lemma {:induction false} EntryLivesFiveMinutes(hasher: Hasher, r: Request, entry: Entry, at: nat, now: nat)
    requires now >= at
    ensures Peek(After(hasher, [Store(r, entry, at)]), KeyOf(hasher, r), now)
         == if now - at <= 300_000_000_000 then Found(entry) else NotFound
  {
    var run := [Store(r, entry, at)];
    assert run[..0] == [];
  }

  /*---------- Where one query's key is another's ----------*/

  /** While what was stored for r is still live and its key otherwise left alone, storing for s
      leaves it alone exactly when the two hashes differ or the entries are the same. */
  lemma {:induction false} OtherQueryInterferes(hasher: Hasher, before: seq<Event>, r: Request, mine: Entry, at: nat,
                                               between: seq<Event>, s: Request, other: Entry, at': nat,
                                               later: seq<Event>, now: nat)
    requires var run := before + [Store(r, mine, at)] + between + [Store(s, other, at')] + later;
      InTime(run, now) && now <= at + DEFAULT_EXPIRATION
    requires Untouched(hasher, between, KeyOf(hasher, r)) && Untouched(hasher, later, KeyOf(hasher, r))
    ensures var run := before + [Store(r, mine, at)] + between + [Store(s, other, at')] + later;
      Peek(After(hasher, run), KeyOf(hasher, r), now) == Found(mine)
      <==> hasher.Sum(Hashed(r)) != hasher.Sum(Hashed(s)) || mine == other
  {
    KeysAreHashes(hasher, r, s);
    var key, first := KeyOf(hasher, r), before + [Store(r, mine, at)];
    var second := first + between + [Store(s, other, at')];
    var run := second + later;
    LookupIsLastStored(hasher, run, key, now);
    LastStoredSkips(hasher, second, later, key);
    LastStoredSkips(hasher, first, between, key);
    assert first[..|before|] == before && second[..|first + between|] == first + between;
    assert run[|before|] == Store(r, mine, at) && run[|first + between|] == Store(s, other, at');
  }

  /** The hash does not see where an example ends or to which side it belongs: requiring a and
      forbidding b has the key of requiring both and of requiring their concatenation. */
  lemma {:induction false} KeyIgnoresBoundaries(hasher: Hasher, a: Text, b: Text)
    requires LexLeq(a, b)
    ensures KeyOf(hasher, Request([a], [b])) == KeyOf(hasher, Request([a, b], []))
    ensures KeyOf(hasher, Request([a], [b])) == KeyOf(hasher, Request([a + b], []))
  {
    OrderedOne(a);
    OrderedOne(b);
    OrderedOne(a + b);
    assert [a, b][..1] == [a];
    assert [a][..0] == [] && Insert(b, [a], LexLeq) == [a, b];
    assert Flatten([a, b]) == a + b by {
      FlattenOne(a);
    }
    FlattenOne(a);
    FlattenOne(b);
    FlattenOne(a + b);
    assert Ordered([]) == [];
    assert (a + b) + [] == a + b;
  }

  lemma {:induction false} OrderedOne(a: Text)
    ensures Ordered([a]) == [a]
  {
    var one: seq<Text> := [a];
    assert one[..0] == [] && Ordered(one[..0]) == [];
    assert Insert(a, [], LexLeq) == [a];
  }

  lemma {:induction false} FlattenOne(a: Text)
    ensures Flatten([a]) == a
  {
    assert [a][..0] == [];
  }
}
