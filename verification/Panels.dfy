/** Panel heights and the scroll window over the process list. */
module Panels {
  import opened ProcessText
  import opened ProcessLists

  const STATUS_HEIGHT: int := 3
  const INPUT_HEIGHT: int := 5

  /** The heights the layout arrives at; its reduction of the input panel never takes effect. */
  function ProcHeight(lines: nat): (h: nat)
    ensures h >= 2
  {
    if lines >= 10 then lines - 8 else 2
  }

  method CalcDimensions(lines: nat) returns (procH: int, inputH: int, statusH: int)
    ensures procH == ProcHeight(lines) && inputH == INPUT_HEIGHT && statusH == STATUS_HEIGHT
  {
    statusH := STATUS_HEIGHT;
    inputH := INPUT_HEIGHT;
    procH := lines - inputH - statusH;
    var minProc := (lines * 60 + 99) / 100;
    if procH < minProc {
      procH := minProc;
      inputH := lines - procH - statusH;
      if inputH < 5 {
        inputH := 5;
        procH := lines - inputH - statusH;
      }
    }
    if procH < 2 {
      procH := 2;
    }
  }

  /** The layout's promises hold exactly from these terminal heights on: the panels fill
      the terminal, the list has at least 60 % of it, the list shows at least one row. */
  lemma LayoutPromises(lines: nat)
    ensures ProcHeight(lines) + INPUT_HEIGHT + STATUS_HEIGHT == lines <==> lines >= 10
    ensures 100 * ProcHeight(lines) >= 60 * lines <==> lines >= 20 || lines <= 3
    ensures ProcHeight(lines) - 3 >= 1 <==> lines >= 12
  {
  }

  function MaxOffset(total: nat, height: int): (m: nat)
    ensures m == 0 || m == total - height
  {
    if total - height < 0 then 0 else total - height
  }

  /** The offset after a scroll request, kept where a full window can be shown. */
  function ScrollClamp(offset: int, delta: int, total: nat, height: int): (r: nat)
    ensures r <= MaxOffset(total, height)
    ensures 0 <= offset + delta <= MaxOffset(total, height) ==> r == offset + delta
    ensures offset + delta < 0 ==> r == 0
    ensures offset + delta > MaxOffset(total, height) ==> r == MaxOffset(total, height)
  {
    var wanted := if offset + delta < 0 then 0 else offset + delta;
    if wanted > MaxOffset(total, height) then MaxOffset(total, height) else wanted
  }

  /** At an offset in range the panel shows as many rows as it can. */
  lemma FullWindow(items: seq<Entry>, height: int, width: int, offset: nat)
    requires height >= 3 && width >= 3 && offset <= MaxOffset(|items|, height - 3)
    ensures |Window(items, height, width, offset)| == if |items| < height - 3 then |items| else height - 3
  {
  }

  /** The offset after a sequence of arrow keys, each -1 or 1. */
  function Scroll(offset: nat, keys: seq<int>, total: nat, height: int): nat
    decreases |keys|
  {
    if keys == [] then offset else Scroll(ScrollClamp(offset, keys[0], total, height), keys[1..], total, height)
  }

  predicate AreArrows(keys: seq<int>) {
    forall i :: 0 <= i < |keys| ==> keys[i] == -1 || keys[i] == 1
  }

  lemma {:induction false} ScrollAppend(offset: nat, a: seq<int>, b: seq<int>, total: nat, height: int)
    ensures Scroll(offset, a + b, total, height) == Scroll(Scroll(offset, a, total, height), b, total, height)
    decreases |a|
  {
    if a == [] {
      assert a + b == b;
    } else {
      assert (a + b)[1..] == a[1..] + b;
      ScrollAppend(ScrollClamp(offset, a[0], total, height), a[1..], b, total, height);
    }
  }

  /** From any offset in range, arrow keys reach any other. */
  lemma {:induction false} ScrollTo(from: nat, to: nat, total: nat, height: int) returns (keys: seq<int>)
    requires from <= MaxOffset(total, height) && to <= MaxOffset(total, height)
    ensures AreArrows(keys) && Scroll(from, keys, total, height) == to
    ensures |keys| == if from < to then to - from else from - to
    decreases if from < to then to - from else from - to
  {
    if from == to {
      keys := [];
    } else {
      var d := if from < to then 1 else -1;
      var rest := ScrollTo(from + d, to, total, height);
      keys := [d] + rest;
      assert keys[1..] == rest;
    }
  }

  /** Whatever the offset has become, finitely many arrow keys bring any entry into a
      window with at least one row; a window without rows shows nothing at any offset. */
  lemma EveryEntryReachable(items: seq<Entry>, height: int, width: int, offset: nat, e: nat) returns (keys: seq<int>)
    requires e < |items| && width >= 3
    ensures AreArrows(keys)
    ensures height - 3 < 1 ==> forall to :: Window(items, height, width, to) == []
    ensures var to := Scroll(offset, keys, |items|, height - 3);
            (to <= e && items[e] in Window(items, height, width, to)
             && e - to < |Window(items, height, width, to)|) <==> height - 3 >= 1
  {
    var h := height - 3;
    if h < 1 {
      keys := [];
    } else {
      var top := ScrollClamp(offset, -1, |items|, h);
      var to := if e <= MaxOffset(|items|, h) then e else MaxOffset(|items|, h);
      var rest := ScrollTo(top, to, |items|, h);
      keys := [-1] + rest;
      ScrollAppend(offset, [-1], rest, |items|, h);
      assert Scroll(offset, [-1], |items|, h) == top by {
        assert [-1][1..] == [];
      }
      FullWindow(items, height, width, to);
      assert Window(items, height, width, to)[e - to] == items[e];
    }
  }
}
