/** The image gallery of the detail page: which image is shown, and whether the enlarged view is open. */
module ImageGallery {

  /** `currentIndex` and `isModalOpen`; `count` is `images.length`, fixed for a listing. */
  datatype Gallery = Gallery(index: int, modalOpen: bool)

  function Initial(): (g: Gallery)
    ensures g.index == 0 && !g.modalOpen
  {
    Gallery(0, false)
  }

  predicate InRange(g: Gallery, count: nat) {
    0 <= g.index < count
  }

  /** `handlePrev`: from the first image to the last, otherwise one back. */
  function Prev(g: Gallery, count: nat): (r: Gallery)
    ensures r.modalOpen == g.modalOpen
    ensures InRange(g, count) ==> InRange(r, count) && r.index == (g.index - 1 + count) % count
  {
    g.(index := if g.index == 0 then count - 1 else g.index - 1)
  }

  /** `handleNext`: from the last image to the first, otherwise one on. */
  function Next(g: Gallery, count: nat): (r: Gallery)
    ensures r.modalOpen == g.modalOpen
    ensures InRange(g, count) ==> InRange(r, count) && r.index == (g.index + 1) % count
  {
    g.(index := if g.index == count - 1 then 0 else g.index + 1)
  }

  /** The thumbnail marked active (class `active`, `aria-current`). */
  predicate IsActive(g: Gallery, thumbnail: nat) {
    thumbnail == g.index
  }

  /**
   * `handleThumbnailClick(index)` for the thumbnail at `index`: that thumbnail, and
   * no other, becomes the active one.
   */
  function SelectThumbnail(g: Gallery, index: nat, count: nat): (r: Gallery)
    requires index < count
    ensures InRange(r, count) && r.index == index && r.modalOpen == g.modalOpen
    ensures IsActive(r, index) && forall t: nat :: IsActive(r, t) ==> t == index
  {
    g.(index := index)
  }

  /** `handleMainImageClick`: open the enlarged view of the current image. */
  function OpenModal(g: Gallery): (r: Gallery)
    ensures r.modalOpen && r.index == g.index
  {
    g.(modalOpen := true)
  }

  /** `handleCloseModal`. */
  function CloseModal(g: Gallery): (r: Gallery)
    ensures !r.modalOpen && r.index == g.index
  {
    g.(modalOpen := false)
  }

  /** Opening and closing the enlarged view never moves the position, and closing undoes opening. */
  lemma ModalKeepsPosition(g: Gallery, count: nat)
    ensures CloseModal(OpenModal(g)) == g.(modalOpen := false)
    ensures Next(OpenModal(g), count) == OpenModal(Next(g, count))
    ensures Prev(OpenModal(g), count) == OpenModal(Prev(g, count))
  {
  }

  /** Back and forward undo each other. */
  lemma PrevNextInverse(g: Gallery, count: nat)
    requires InRange(g, count)
    ensures Prev(Next(g, count), count) == g
    ensures Next(Prev(g, count), count) == g
  {
  }

  /** `k` presses of the forward button. */
  function NextTimes(g: Gallery, count: nat, k: nat): Gallery
    decreases k
  {
    if k == 0 then g else Next(NextTimes(g, count, k - 1), count)
  }

  /** `k` presses of the forward button move `k` places round the ring of images. */
  lemma {:induction false} NextTimesRotates(g: Gallery, count: nat, k: nat)
    requires InRange(g, count)
    ensures InRange(NextTimes(g, count, k), count)
    ensures NextTimes(g, count, k) == g.(index := (g.index + k) % count)
    decreases k
  {
    if k > 0 {
      NextTimesRotates(g, count, k - 1);
      var i := (g.index + k - 1) % count;
      assert (i + 1) % count == (g.index + k) % count by {
        ModSuccessor(g.index + k - 1, count);
      }
    }
  }

  lemma {:induction false} ModSuccessor(a: nat, n: nat)
    requires n > 0
    ensures (a % n + 1) % n == (a + 1) % n
    decreases a
  {
    if a < n {
      ModOfSmall(a, n);
    } else {
      ModSuccessor(a - n, n);
      ModShift(a - n, n);
      ModShift(a + 1 - n, n);
    }
  }

  lemma ModOfSmall(x: nat, n: nat)
    requires x < n
    ensures x % n == x
  {
    var q := x / n;
    if q > 0 {
      assert q * n >= n;
    }
  }

  lemma ModShift(x: nat, n: nat)
    requires n > 0
    ensures (x + n) % n == x % n
  {
    var q := x / n;
    var r := x % n;
    assert x + n == (q + 1) * n + r;
    ModUnique(x + n, n, q + 1, r);
  }

  /** The remainder is the only `r` in range with `x == q * n + r`. */
  lemma ModUnique(x: nat, n: nat, q: int, r: int)
    requires n > 0 && 0 <= r < n && x == q * n + r
    ensures x % n == r
  {
    var q0 := x / n;
    var r0 := x % n;
    assert q0 * n + r0 == q * n + r;
    if q0 > q {
      MulAtLeast(q0 - q, n);
    } else if q0 < q {
      MulAtLeast(q - q0, n);
    }
  }

  lemma {:induction false} MulAtLeast(d: int, n: nat)
    requires d >= 1
    ensures d * n >= n
    decreases d
  {
    if d > 1 {
      MulAtLeast(d - 1, n);
      assert d * n == (d - 1) * n + n;
    }
  }

  /** Pressing forward once per image comes back to where it started. */
  lemma FullCircle(g: Gallery, count: nat)
    requires InRange(g, count)
    ensures NextTimes(g, count, count) == g
  {
    NextTimesRotates(g, count, count);
    ModShift(g.index, count);
    ModOfSmall(g.index, count);
  }

  /**
   * A listing without images: the buttons move the index off any image, since
   * neither handler guards against an empty list.
   */
  lemma EmptyGalleryLeavesRange(g: Gallery)
    requires g.index == 0
    ensures Next(g, 0).index == 1 && Prev(g, 0).index == -1
  {
  }
}
