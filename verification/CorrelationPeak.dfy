/** The in-place half swap of refine_correlation_peak, which centres the correlation surface. */
module CorrelationPeak {
  import opened Fft2d

  /** Half a turn along an even dimension n. */
  function Turned(n: nat, i: nat): (r: nat)
    requires i < n
    ensures r < n
  {
    (i + n / 2) % n
  }

  lemma Wrap(n: nat, k: nat)
    requires 0 < n && k < 2 * n
    ensures k % n == if k < n then k else k - n
  {
    if k >= n {
      assert (k - n) / n == 0 && k == n + (k - n);
    }
  }

  lemma TurnedTwice(n: nat, i: nat)
    requires i < n && n % 2 == 0
    ensures Turned(n, Turned(n, i)) == i
    ensures Turned(n, i) == if i < n / 2 then i + n / 2 else i - n / 2
  {
    Wrap(n, i + n / 2);
    Wrap(n, Turned(n, i) + n / 2);
  }

  /** Every quadrant has changed places with the opposite one. */
  predicate IsHalfSwapped(after: seq<real>, before: seq<real>, w: nat, h: nat) {
    && |after| == |before| == w * h
    && forall y, x :: 0 <= y < h && 0 <= x < w ==>
                        Entry(after, w, h, y, x) == Entry(before, w, h, Turned(h, y), Turned(w, x))
  }

  /** Swapping the halves twice gives the surface back. */
  lemma HalfSwapTwice(a: seq<real>, b: seq<real>, c: seq<real>, w: nat, h: nat)
    requires w % 2 == 0 && h % 2 == 0 && IsHalfSwapped(b, a, w, h) && IsHalfSwapped(c, b, w, h)
    ensures forall y, x :: 0 <= y < h && 0 <= x < w ==> Entry(c, w, h, y, x) == Entry(a, w, h, y, x)
  {
    hide Entry, Turned;
    forall y: nat, x: nat | y < h && x < w ensures Entry(c, w, h, y, x) == Entry(a, w, h, y, x) {
      TurnedTwice(h, y);
      TurnedTwice(w, x);
    }
  }

  /** Exchanging two entries. */
  lemma SwapEntries(s: seq<real>, w: nat, h: nat, y: nat, x: nat, z: nat, u: nat)
    requires |s| == w * h && y < h && x < w && z < h && u < w && y != z
    ensures Index(w, y, x) < |s| && Index(w, z, u) < |s| && Index(w, y, x) != Index(w, z, u)
    ensures var r := s[Index(w, y, x) := s[Index(w, z, u)]][Index(w, z, u) := s[Index(w, y, x)]];
            && (forall v, c :: 0 <= v < h && 0 <= c < w && (v != y || c != x) && (v != z || c != u) ==>
                                 Entry(r, w, h, v, c) == Entry(s, w, h, v, c))
            && Entry(r, w, h, y, x) == Entry(s, w, h, z, u) && Entry(r, w, h, z, u) == Entry(s, w, h, y, x)
  {
    IndexFits(w, h, y, x);
    IndexFits(w, h, z, u);
    if Index(w, y, x) == Index(w, z, u) { IndexInjective(w, y, x, z, u); }
    var r := s[Index(w, y, x) := s[Index(w, z, u)]][Index(w, z, u) := s[Index(w, y, x)]];
    forall v: nat, c: nat | v < h && c < w && (v != y || c != x) && (v != z || c != u)
      ensures Entry(r, w, h, v, c) == Entry(s, w, h, v, c)
    {
      IndexFits(w, h, v, c);
      if Index(w, v, c) == Index(w, y, x) { IndexInjective(w, v, c, y, x); }
      if Index(w, v, c) == Index(w, z, u) { IndexInjective(w, v, c, z, u); }
      hide Index;
    }
  }

  /** Row y of the upper half changes places with its opposite up to column x. */
  predicate RowSwapped(after: seq<real>, before: seq<real>, w: nat, h: nat, y: nat, x: nat)
    requires |after| == |before| == w * h && y + h / 2 < h
  {
    forall v, c :: 0 <= v < h && 0 <= c < w ==>
                     Entry(after, w, h, v, c)
                     == if (v == y && c < x) || (v == y + h / 2 && Turned(w, c) < x)
                        then Entry(before, w, h, Turned(h, v), Turned(w, c)) else Entry(before, w, h, v, c)
  }

  lemma RowSwapStep(s: seq<real>, before: seq<real>, w: nat, h: nat, y: nat, x: nat)
    requires |s| == |before| == w * h && w % 2 == 0 && h % 2 == 0 && y < h / 2 && x < w
    requires RowSwapped(s, before, w, h, y, x)
    ensures var i, j := Index(w, y, x), Index(w, y + h / 2, Turned(w, x));
            i < |s| && j < |s| && i != j && RowSwapped(s[i := s[j]][j := s[i]], before, w, h, y, x + 1)
  {
    var z, u := y + h / 2, Turned(w, x);
    SwapEntries(s, w, h, y, x, z, u);
    TurnedTwice(h, y);
    TurnedTwice(h, z);
    TurnedTwice(w, x);
    hide Entry, Index, Turned;
    var r := s[Index(w, y, x) := s[Index(w, z, u)]][Index(w, z, u) := s[Index(w, y, x)]];
    forall v: nat, c: nat | v < h && c < w
      ensures Entry(r, w, h, v, c)
              == if (v == y && c < x + 1) || (v == z && Turned(w, c) < x + 1)
                 then Entry(before, w, h, Turned(h, v), Turned(w, c)) else Entry(before, w, h, v, c)
    {
      TurnedTwice(w, c);
    }
  }

  /** The inner loop. */
  method SwapRow(surf: array<real>, w: nat, h: nat, y: nat)
    requires surf.Length == w * h && w % 2 == 0 && h % 2 == 0 && y < h / 2
    modifies surf
    ensures RowSwapped(surf[..], old(surf[..]), w, h, y, w)
  {
    hide Entry, Index, Turned, RowSwapped;
    ghost var before := surf[..];
    NothingSwapped(before, w, h, y);
    for x := 0 to w
      invariant RowSwapped(surf[..], before, w, h, y, x)
    {
      RowSwapStep(surf[..], before, w, h, y, x);
      var xs, ys := Turned(w, x), y + h / 2;
      ghost var s := surf[..];
      surf[Index(w, y, x)], surf[Index(w, ys, xs)] := surf[Index(w, ys, xs)], surf[Index(w, y, x)];
      assert surf[..] == s[Index(w, y, x) := s[Index(w, ys, xs)]][Index(w, ys, xs) := s[Index(w, y, x)]];
    }
  }

  lemma NothingSwapped(s: seq<real>, w: nat, h: nat, y: nat)
    requires |s| == w * h && y + h / 2 < h
    ensures RowSwapped(s, s, w, h, y, 0)
  {
    hide Entry;
  }

  predicate RowsSwapped(after: seq<real>, before: seq<real>, w: nat, h: nat, y: nat)
    requires |after| == |before| == w * h
  {
    forall v, c :: 0 <= v < h && 0 <= c < w ==>
                     Entry(after, w, h, v, c)
                     == if v < y || h / 2 <= v < h / 2 + y
                        then Entry(before, w, h, Turned(h, v), Turned(w, c)) else Entry(before, w, h, v, c)
  }

  lemma RowsSwapStep(after: seq<real>, s: seq<real>, before: seq<real>, w: nat, h: nat, y: nat)
    requires |after| == |s| == |before| == w * h && w % 2 == 0 && h % 2 == 0 && y < h / 2
    requires RowsSwapped(s, before, w, h, y) && RowSwapped(after, s, w, h, y, w)
    ensures RowsSwapped(after, before, w, h, y + 1)
  {
    TurnedTwice(h, y);
    TurnedTwice(h, y + h / 2);
    hide Entry, Turned;
    forall v: nat, c: nat | v < h && c < w
      ensures Entry(after, w, h, v, c)
              == if v < y + 1 || h / 2 <= v < h / 2 + y + 1
                 then Entry(before, w, h, Turned(h, v), Turned(w, c)) else Entry(before, w, h, v, c)
    {
      TurnedTwice(w, c);
    }
  }

  /** The swap loops of refine_correlation_peak, for even dimensions. */
  method HalfSwap(surf: array<real>, w: nat, h: nat)
    requires surf.Length == w * h && w % 2 == 0 && h % 2 == 0
    modifies surf
    ensures IsHalfSwapped(surf[..], old(surf[..]), w, h)
  {
    hide Entry, Turned;
    ghost var before := surf[..];
    for y := 0 to h / 2
      invariant RowsSwapped(surf[..], before, w, h, y)
    {
      hide RowsSwapped;
      ghost var s := surf[..];
      SwapRow(surf, w, h, y);
      RowsSwapStep(surf[..], s, before, w, h, y);
    }
  }
}
