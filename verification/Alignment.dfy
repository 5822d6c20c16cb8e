// Addresses and sizes that are multiples of 8, of 16 and of the page size. Both heaps put 32 bytes of tags around a
// payload.
module Alignment {
  import opened PhysMemory

  predicate Aligned8(n: nat) { n % 8 == 0 }
  predicate Aligned16(n: nat) { n % 16 == 0 }
  predicate PageAligned(n: nat) { n % PAGE == 0 }

  lemma Sixteenth(n: nat) returns (q: nat)
    requires Aligned16(n)
    ensures n == 16 * q
  {
    q := n / 16;
  }

  lemma Times8(n: nat, q: nat)
    requires n == 8 * q
    ensures Aligned8(n)
  {
  }

  lemma Times16(n: nat, q: nat)
    requires n == 16 * q
    ensures Aligned16(n)
  {
  }

  // Two payloads become one, with the tags between them.
  lemma JoinAligned(x: nat, y: nat)
    requires Aligned16(x) && Aligned16(y)
    ensures Aligned16(x + 32 + y)
  {
    var p := Sixteenth(x);
    var q := Sixteenth(y);
    Times16(x + 32 + y, p + q + 2);
  }

  // A payload is cut off another.
  lemma CutAligned(x: nat, y: nat)
    requires Aligned16(x) && Aligned16(y) && y + 32 <= x
    ensures Aligned16(x - y - 32)
  {
    var p := Sixteenth(x);
    var q := Sixteenth(y);
    Times16(x - y - 32, p - q - 2);
  }

  const WORD: nat := 0x1_0000_0000_0000_0000

  // A request rounded up to 16 in 64-bit arithmetic.
  function Rounded(n: nat): nat { (n + 15) % WORD / 16 * 16 }

  // The result is as large as the request exactly when the rounding does not wrap; when it does it is zero.
  lemma RoundedCovers(n: nat)
    requires n < WORD
    ensures Aligned16(Rounded(n)) && Rounded(n) < n + 16
    ensures Rounded(n) >= n <==> n <= WORD - 16
    ensures n > WORD - 16 ==> Rounded(n) == 0
  {
    var q := (n + 15) % WORD / 16;
    Times16(Rounded(n), q);
    if n > WORD - 16 { assert (n + 15) % WORD == n + 15 - WORD < 16; }
  }

  lemma RoundedTwice(n: nat)
    ensures Rounded(Rounded(n)) == Rounded(n)
  {
    var q := (n + 15) % WORD / 16;
    assert Rounded(n) == 16 * q;
    assert 16 * q + 15 < WORD;
  }

  // Whole pages as one block.
  lemma PagesAligned(a: nat, pages: nat)
    requires PageAligned(a) && pages >= 1
    ensures Aligned16(a) && Aligned16(pages * PAGE - 32) && pages * PAGE - 32 >= 16 && PageAligned(a + pages * PAGE)
  {
    var p := a / PAGE;
    assert a == PAGE * p;
    hide Aligned16, PageAligned;
    Times16(a, 256 * p);
    Times16(pages * PAGE - 32, 256 * pages - 2);
    TimesPage(a + pages * PAGE, p + pages);
  }

  lemma TimesPage(n: nat, q: nat)
    requires n == PAGE * q
    ensures PageAligned(n)
  {
  }
}
