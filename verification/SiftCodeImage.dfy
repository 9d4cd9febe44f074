/** The reader's icache: 4 KiB pages of code bytes, filled page by page or instruction by instruction. */
module SiftCodeImage {
  import opened SiftFormat

  type Page = p: seq<Byte> | |p| == 4096 witness seq(4096, _ => 0)
  type Image = map<Word64, Page>

  /** What `new uint8_t[ICACHE_SIZE]` happens to contain. */
  type Heap = Word64 -> Byte

  /** How many bytes `x` lies after `a`, in 64-bit arithmetic. */
  function Distance(a: Word64, x: Word64): (d: nat)
    ensures d < TWO64 && Add64(a, d) == x
  {
    if x >= a then x - a else x - a + TWO64
  }

  function Touched(addr: Word64, n: nat): (ps: set<Word64>)
    ensures forall p <- ps :: p % PAGE == 0 && p + PAGE <= TWO64
  {
    set k: int | 0 <= k < n :: PageBase(Add64(addr, k))
  }

  /** The content of byte i of page b before anything is stored there. */
  function Before(heap: Heap, im: Image, b: Word64, i: nat): (v: Byte)
    requires b + PAGE <= TWO64 && i < PAGE
  {
    if b in im then im[b][i] else heap(b + i)
  }

  /** The content of byte i of page b once `bs` is stored at `addr`. */
  function After(heap: Heap, im: Image, addr: Word64, bs: seq<Byte>, b: Word64, i: nat): (v: Byte)
    requires b + PAGE <= TWO64 && i < PAGE
  {
    var d := Distance(addr, b + i);
    if d < |bs| then bs[d] else Before(heap, im, b, i)
  }

  function Overlay(heap: Heap, im: Image, addr: Word64, bs: seq<Byte>, b: Word64): (p: Page)
    requires b + PAGE <= TWO64
    ensures forall i :: 0 <= i < PAGE ==> p[i] == After(heap, im, addr, bs, b, i)
  {
    seq<Byte>(4096, (i: int) requires 0 <= i < 4096 => After(heap, im, addr, bs, b, i))
  }

  /** The image once `bs` is stored at `addr`: every byte of the range, nothing else. */
  ghost function Store(heap: Heap, im: Image, addr: Word64, bs: seq<Byte>): (r: Image)
    ensures r.Keys == im.Keys + Touched(addr, |bs|)
  {
    map b: Word64 | b in im.Keys + Touched(addr, |bs|) ::
      if b in Touched(addr, |bs|) then Overlay(heap, im, addr, bs, b) else im[b]
  }

  ghost predicate Present(im: Image, addr: Word64, size: nat)
  {
    Touched(addr, size) <= im.Keys
  }

  function ByteAt(im: Image, x: Word64): (v: Byte)
    requires PageBase(x) in im
  {
    im[PageBase(x)][x - PageBase(x)]
  }

  ghost function Fetch(im: Image, addr: Word64, size: nat): (bs: seq<Byte>)
    requires Present(im, addr, size)
    ensures |bs| == size
  {
    seq<Byte>(size, k requires 0 <= k < size => ByteAt(im, Add64(addr, k)))
  }

  // ---------------------------------------------------------------- one chunk inside a page

  lemma TouchedExtend(addr: Word64, done: nat, amount: nat)
    requires 0 < amount && done + amount < TWO32
    requires var a := Add64(addr, done); a - PageBase(a) + amount <= PAGE
    ensures Touched(addr, done + amount) == Touched(addr, done) + {PageBase(Add64(addr, done))}
  {
    var a := Add64(addr, done);
    forall k | done <= k < done + amount
      ensures PageBase(Add64(addr, k)) == PageBase(a) && Add64(addr, k) == a + (k - done)
    {
    }
    forall p | p in Touched(addr, done + amount)
      ensures p in Touched(addr, done) + {PageBase(a)}
    {
      var k: int :| 0 <= k < done + amount && p == PageBase(Add64(addr, k));
      if k < done {
        assert p in Touched(addr, done);
      }
    }
    forall p | p in Touched(addr, done)
      ensures p in Touched(addr, done + amount)
    {
      var k: int :| 0 <= k < done && p == PageBase(Add64(addr, k));
    }
    assert PageBase(Add64(addr, done)) in Touched(addr, done + amount);
  }

  /** Within one chunk, and only there, the distance from `addr` falls into the chunk. */
  lemma ChunkDistance(addr: Word64, done: nat, amount: nat, x: Word64)
    requires done + amount < TWO32
    requires var a := Add64(addr, done); a + amount <= TWO64
    ensures var a := Add64(addr, done);
            if a <= x < a + amount then Distance(addr, x) == done + (x - a)
            else Distance(addr, x) < done || Distance(addr, x) >= done + amount
  {
  }

  /** What the reader leaves in the page of `a` when it copies `amount` bytes from position `done` there. */
  ghost predicate Copied(heap: Heap, cur: Image, a: Word64, bs: seq<Byte>, done: nat, amount: nat, page: Page)
    requires done + amount <= |bs|
  {
    var base := PageBase(a);
    forall i: int :: 0 <= i < PAGE ==>
      page[i] == if a <= base + i < a + amount then bs[done + (base + i - a)] else Before(heap, cur, base, i)
  }

  lemma TouchedWithin(addr: Word64, n: nat, x: Word64)
    requires Distance(addr, x) < n
    ensures PageBase(x) in Touched(addr, n)
  {
    assert PageBase(Add64(addr, Distance(addr, x))) in Touched(addr, n);
  }

  /** The page of `a` with `chunk` copied in at `a`. */
  function Fill(heap: Heap, cur: Image, a: Word64, chunk: seq<Byte>): (p: Page)
    requires a - PageBase(a) + |chunk| <= PAGE
    ensures Copied(heap, cur, a, chunk, 0, |chunk|, p)
  {
    var base := PageBase(a);
    var old_: Page := if base in cur then cur[base] else NewPage(heap, base);
    old_[..a - base] + chunk + old_[a - base + |chunk|..]
  }

  function NewPage(heap: Heap, base: Word64): (p: Page)
    requires base + PAGE <= TWO64
    ensures forall i: int :: 0 <= i < PAGE ==> p[i] == heap(base + i)
  {
    seq<Byte>(4096, (i: int) requires 0 <= i < 4096 => heap(base + i))
  }

  lemma ChunkByte(heap: Heap, im: Image, addr: Word64, bs: seq<Byte>, done: nat, amount: nat, b: Word64, i: nat)
    requires done + amount <= |bs| < TWO32
    requires Add64(addr, done) + amount <= TWO64 && b + PAGE <= TWO64 && i < PAGE
    ensures var a := Add64(addr, done);
            After(heap, im, addr, bs[..done + amount], b, i)
            == if a <= b + i < a + amount then bs[done + (b + i - a)] else After(heap, im, addr, bs[..done], b, i)
  {
    hide Add64, Distance, Before;
    ChunkDistance(addr, done, amount, b + i);
  }

  /** Reading a stored image back, byte by byte. */
  lemma BeforeStored(heap: Heap, im: Image, addr: Word64, bs: seq<Byte>, b: Word64, i: nat)
    requires b % PAGE == 0 && b + PAGE <= TWO64 && i < PAGE
    ensures Before(heap, Store(heap, im, addr, bs), b, i) == After(heap, im, addr, bs, b, i)
  {
    hide Distance, Touched, PageBase, Overlay, Add64;
    var stored := Store(heap, im, addr, bs);
    if b in Touched(addr, |bs|) {
      assert stored[b] == Overlay(heap, im, addr, bs, b);
    } else {
      assert Distance(addr, b + i) >= |bs| by {
        if Distance(addr, b + i) < |bs| {
          TouchedWithin(addr, |bs|, b + i);
          PageBaseOf(b, b + i);
          assert false;
        }
      }
      assert b in stored <==> b in im;
    }
  }

  /** The page the chunk goes to. */
  lemma ChunkPage(heap: Heap, im: Image, addr: Word64, bs: seq<Byte>, done: nat, amount: nat, page: Page)
    requires done + amount <= |bs| < TWO32
    requires var a := Add64(addr, done); a - PageBase(a) + amount <= PAGE
    requires Copied(heap, Store(heap, im, addr, bs[..done]), Add64(addr, done), bs, done, amount, page)
    ensures Overlay(heap, im, addr, bs[..done + amount], PageBase(Add64(addr, done))) == page
  {
    hide Add64, Store, Before, After;
    var base := PageBase(Add64(addr, done));
    var over := Overlay(heap, im, addr, bs[..done + amount], base);
    forall i: int | 0 <= i < PAGE
      ensures over[i] == page[i]
    {
      ChunkByte(heap, im, addr, bs, done, amount, base, i);
      BeforeStored(heap, im, addr, bs[..done], base, i);
    }
  }

  lemma PageBaseOf(b: Word64, x: Word64)
    requires b % PAGE == 0 && b <= x < b + PAGE
    ensures PageBase(x) == b
  {
  }

  /** An address that lies after a in a's page lies in no other page. */
  lemma OnePage(a: Word64, b: Word64, x: Word64)
    requires b % PAGE == 0 && b <= x < b + PAGE
    ensures a <= x < PageBase(a) + PAGE ==> b == PageBase(a)
  {
  }

  lemma OtherPage(heap: Heap, im: Image, addr: Word64, bs: seq<Byte>, done: nat, amount: nat, b: Word64)
    requires done + amount <= |bs| < TWO32
    requires var a := Add64(addr, done); a - PageBase(a) + amount <= PAGE
    requires b % PAGE == 0 && b + PAGE <= TWO64 && b != PageBase(Add64(addr, done))
    ensures Overlay(heap, im, addr, bs[..done + amount], b) == Overlay(heap, im, addr, bs[..done], b)
  {
    hide Add64, Distance, Before, After;
    var a := Add64(addr, done);
    var x := Overlay(heap, im, addr, bs[..done + amount], b);
    var y := Overlay(heap, im, addr, bs[..done], b);
    forall i: int | 0 <= i < PAGE
      ensures x[i] == y[i]
    {
      ChunkByte(heap, im, addr, bs, done, amount, b, i);
      PageBaseOf(b, b + i);
      OnePage(a, b, b + i);
    }
  }

  /** Storing one more chunk, which stays inside one page, extends what is stored. */
  lemma StoreChunk(heap: Heap, im: Image, addr: Word64, bs: seq<Byte>, done: nat, amount: nat, page: Page)
    requires 0 < amount && done + amount <= |bs| < TWO32
    requires var a := Add64(addr, done); a - PageBase(a) + amount <= PAGE
    requires Copied(heap, Store(heap, im, addr, bs[..done]), Add64(addr, done), bs, done, amount, page)
    ensures Store(heap, im, addr, bs[..done + amount])
            == Store(heap, im, addr, bs[..done])[PageBase(Add64(addr, done)) := page]
  {
    hide Add64, Overlay, Copied, Touched, PageBase;
    var base := PageBase(Add64(addr, done));
    var cur := Store(heap, im, addr, bs[..done]);
    var next := Store(heap, im, addr, bs[..done + amount]);
    TouchedExtend(addr, done, amount);
    ChunkPage(heap, im, addr, bs, done, amount, page);
    forall b | b in next && b != base
      ensures next[b] == cur[b]
    {
      if b in Touched(addr, done) {
        OtherPage(heap, im, addr, bs, done, amount, b);
      }
    }
  }

  // ---------------------------------------------------------------- copying out

  /** The same with the page that the reader builds for the chunk. */
  lemma StoreFilled(heap: Heap, im: Image, addr: Word64, bs: seq<Byte>, done: nat, amount: nat)
    requires 0 < amount && done + amount <= |bs| < TWO32
    requires var a := Add64(addr, done); a - PageBase(a) + amount <= PAGE
    ensures var a := Add64(addr, done);
            var cur := Store(heap, im, addr, bs[..done]);
            Store(heap, im, addr, bs[..done + amount]) == cur[PageBase(a) := Fill(heap, cur, a, bs[done..done + amount])]
  {
    hide Add64, Store, Fill;
    var a := Add64(addr, done);
    var cur := Store(heap, im, addr, bs[..done]);
    var page := Fill(heap, cur, a, bs[done..done + amount]);
    assert Copied(heap, cur, a, bs, done, amount, page);
    StoreChunk(heap, im, addr, bs, done, amount, page);
  }

  lemma StoreNothing(heap: Heap, im: Image, addr: Word64)
    ensures Store(heap, im, addr, []) == im
  {
    assert Touched(addr, 0) == {};
  }

  /** Fetching one more chunk, which stays inside one page. */
  lemma FetchChunk(im: Image, addr: Word64, done: nat, amount: nat)
    requires Present(im, addr, done) && 0 < amount && done + amount < TWO32
    requires var a := Add64(addr, done); a - PageBase(a) + amount <= PAGE && PageBase(a) in im
    ensures Present(im, addr, done + amount)
    ensures var a := Add64(addr, done); var offset := a - PageBase(a);
            Fetch(im, addr, done + amount) == Fetch(im, addr, done) + im[PageBase(a)][offset..offset + amount]
  {
    var a := Add64(addr, done);
    var base := PageBase(a);
    TouchedExtend(addr, done, amount);
    var whole := Fetch(im, addr, done + amount);
    var parts := Fetch(im, addr, done) + im[base][a - base..a - base + amount];
    forall k: int | 0 <= k < done + amount
      ensures whole[k] == parts[k]
    {
      if k >= done {
        assert Add64(addr, k) == a + (k - done);
        PageBaseOf(base, a + (k - done));
      }
    }
  }
}
