/** The arithmetic that decides at which layer each offload group is freed and reloaded. */
module OffloadWindow {

  function Min(a: int, b: int): int {
    if a <= b then a else b
  }

  /** The layer at whose commit the window of group i closes, for n groups over `layers` layers. */
  function Window(n: int, layers: int, i: int): int
    requires n > 0
  {
    layers / n * (i + 1) - 1 + Min(i + 1, layers % n)
  }

  /** The loop of the handler's constructor: it spreads the remainder over the first groups and
      remembers how much it has spread. */
  method BuildWindowMap(n: nat, layers: nat) returns (windows: map<int, int>)
    ensures forall i :: i in windows <==> 0 <= i < n
    ensures forall i :: 0 <= i < n ==> windows[i] == Window(n, layers, i)
  {
    windows := map[];
    var constant := 0;
    for i := 0 to n
      invariant n > 0 ==> constant == Min(i, layers % n)
      invariant forall j :: j in windows <==> 0 <= j < i
      invariant forall j :: 0 <= j < i ==> windows[j] == Window(n, layers, j)
    {
      windows := windows[i := layers / n * (i + 1) - 1];
      if i < layers % n {
        windows := windows[i := windows[i] + (i + 1)];
        constant := i + 1;
      } else {
        windows := windows[i := windows[i] + constant];
      }
    }
  }

  lemma NextMultiple(q: int, i: int)
    ensures q * (i + 2) == q * (i + 1) + q
  {
  }

  lemma CancelFactor(a: int, b: int, n: int)
    requires n > 0 && a * n < b * n
    ensures a < b
  {
  }

  lemma QuotientAtLeast(n: int, layers: int, k: int)
    requires n > 0 && k * n <= layers
    ensures layers / n >= k
  {
    var q := layers / n;
    assert layers == q * n + layers % n;
    assert (q + 1) * n == q * n + n;
    CancelFactor(k, q + 1, n);
  }

  lemma AtLeastOne(n: int, layers: int)
    requires 1 <= n <= layers
    ensures layers / n >= 1
    ensures layers == layers / n * n + layers % n && 0 <= layers % n < n
    ensures n < layers ==> layers / n >= 2 || layers % n >= 1
  {
    QuotientAtLeast(n, layers, 1);
    if layers / n == 1 {
      assert layers / n * n == n;
    }
  }

  /** Two windows in a row are layers / n or layers / n + 1 apart: the load is balanced. */
  lemma WindowGap(n: int, layers: int, i: int)
    requires 1 <= n <= layers && 0 <= i < n - 1
    ensures Window(n, layers, i + 1) - Window(n, layers, i) == layers / n + (if i + 1 < layers % n then 1 else 0)
    ensures Window(n, layers, i) < Window(n, layers, i + 1)
  {
    NextMultiple(layers / n, i);
    AtLeastOne(n, layers);
  }

  lemma {:induction false} WindowIncreasing(n: int, layers: int, i: int, j: int)
    requires 1 <= n <= layers && 0 <= i < j < n
    ensures Window(n, layers, i) < Window(n, layers, j)
    decreases j - i
  {
    WindowGap(n, layers, i);
    if i + 1 < j {
      WindowIncreasing(n, layers, i + 1, j);
    }
  }

  /** The last window closes at the last layer. */
  lemma WindowEnds(n: int, layers: int)
    requires 1 <= n <= layers
    ensures Window(n, layers, n - 1) == layers - 1
  {
    AtLeastOne(n, layers);
  }

  /** A window never closes before its own group's layer, and when some layer is not offloaded
      it closes at least one layer later, so the next group is complete by then. */
  lemma {:induction false} WindowLate(n: int, layers: int, i: int)
    requires 1 <= n <= layers && 0 <= i < n
    ensures i <= Window(n, layers, i) < layers
    ensures n < layers ==> i + 1 <= Window(n, layers, i)
  {
    AtLeastOne(n, layers);
    if i == 0 {
      assert layers / n * 1 == layers / n;
    } else {
      WindowLate(n, layers, i - 1);
      WindowGap(n, layers, i - 1);
    }
    WindowEnds(n, layers);
    if i < n - 1 {
      WindowIncreasing(n, layers, i, n - 1);
    }
  }

  /** As the handler is used: all layers but the last are offloaded, and group i's window
      closes one layer later. */
  lemma WindowAllButLast(n: int, layers: int, i: int)
    requires 2 <= n == layers - 1 && 0 <= i < n
    ensures Window(n, layers, i) == i + 1
  {
    AtLeastOne(n, layers);
    assert layers == 1 * n + 1;
    assert layers / n == 1 && layers % n == 1;
  }
}
