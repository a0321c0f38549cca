/**
 * What the bounded dedup window decides: which frames share a key, and when a control frame is handed
 * over again (packages/cli/src/broker/order.ts).
 */
module DedupWindow {
  import opened Common
  import opened Orderer
  import opened OrdererProperties

  // ---------------------------------------------------------------------------------------------
  // Dedup keys
  // ---------------------------------------------------------------------------------------------

  lemma LastColonSplits(a: string, b: string, x: string, y: string)
    requires ':' !in x && ':' !in y
    requires a + ":" + x == b + ":" + y
    ensures a == b && x == y
  {
    var s := a + ":" + x;
    assert s[|a|] == ':' && s[|b|] == ':';
    assert forall i :: |a| < i < |s| ==> s[i] == x[i - |a| - 1] && s[i] in x;
    assert forall i :: |b| < i < |s| ==> s[i] == y[i - |b| - 1] && s[i] in y;
    assert |a| == |b|;
    assert s[..|a|] == a && s[..|b|] == b && s[|a| + 1..] == x && s[|b| + 1..] == y;
  }

  lemma ShowHasNoColon(i: int)
    ensures ':' !in Show(i)
  {
    DecimalIsDigits(if i < 0 then -i else i);
  }

  predicate SamePart(f: Frame, g: Frame) {
    f.msgId == g.msgId && (Chunked(f) <==> Chunked(g)) && (Chunked(f) ==> f.part == g.part)
  }

  /** The id of the whole frame `g` spells out the chunk `f`. */
  predicate Spells(g: Frame, f: Frame) {
    Chunked(f) && !Chunked(g) && g.msgId == f.msgId + ":" + Show(f.part)
  }

  /**
   * For any ids, two frames share a dedup key exactly when they are the same part of the same message,
   * or one is whole and its id is the other's, a colon, and the other's part number. Chunks never
   * collide, whatever colons their ids hold.
   */
  lemma KeysCollideIff(f: Frame, g: Frame)
    ensures DedupKey(f) == DedupKey(g) <==> SamePart(f, g) || Spells(g, f) || Spells(f, g)
  {
    if DedupKey(f) == DedupKey(g) && Chunked(f) && Chunked(g) {
      ShowHasNoColon(f.part);
      ShowHasNoColon(g.part);
      LastColonSplits(f.msgId, g.msgId, Show(f.part), Show(g.part));
      ShowInjective(f.part, g.part);
    }
  }

  /** In particular without colons a key names one part of one message. */
  lemma ColonFreeKeysNameOnePart(f: Frame, g: Frame)
    requires ':' !in f.msgId && ':' !in g.msgId
    ensures DedupKey(f) == DedupKey(g) <==> SamePart(f, g)
  {
    KeysCollideIff(f, g);
    assert Chunked(f) ==> DedupKey(f)[|f.msgId|] == ':';
    assert Chunked(g) ==> DedupKey(g)[|g.msgId|] == ':';
  }

  /** A frame that follows one with its key changes nothing and is handed over to nobody. */
  lemma CollidingFrameIsLost(start: nat, cap: nat, arrivals: seq<Frame>, f: Frame, g: Frame)
    requires cap > 0 && DedupKey(f) == DedupKey(g)
    ensures Run(start, cap, arrivals + [f, g]) == Run(start, cap, arrivals + [f])
  {
    assert arrivals + [f, g] == (arrivals + [f]) + [g];
    RunSnoc(start, cap, arrivals + [f], g);
    RunSnoc(start, cap, arrivals, f);
    RunKeepsWindow(start, cap, arrivals);
    StepNotes(Run(start, cap, arrivals).0, f);
    NotedIsHeld(cap, Run(start, cap, arrivals).0.window, DedupKey(f));
    assert DedupKey(g) in Run(start, cap, arrivals + [f]).0.seen;
    assert Run(start, cap, arrivals + [f]).1 + [] == Run(start, cap, arrivals + [f]).1;
  }

  /** Such frames of different messages exist, and the second one to arrive is lost to its message. */
  lemma CollidingKeysLoseAFrame(id: string, p: nat, q: nat, f: Frame, g: Frame)
    requires p != q && f == Frame(id, Some(p), 1, 2, "chunk") && g == Frame(id + ":1", Some(q), 0, 1, "whole")
    ensures DedupKey(f) == DedupKey(g)
    ensures f in Slot(Run(p, 8192, [f, g]).0, p) && Slot(Run(p, 8192, [f, g]).0, q) == []
  {
    assert Show(1) == "1";
    KeysCollideIff(f, g);
    assert [] + [f, g] == [f, g] && [] + [f] == [f];
    CollidingFrameIsLost(p, 8192, [], f, g);
    RunSnoc(p, 8192, [], f);
    assert Step(Initial(p, 8192), f) == Drain(Place(Initial(p, 8192), f));
  }

  // ---------------------------------------------------------------------------------------------
  // The window of keys
  // ---------------------------------------------------------------------------------------------

  /** The window after one more key: unchanged when it holds the key, else the key replaces the oldest. */
  function Noted(cap: nat, window: seq<string>, key: string): seq<string> {
    if key in window then window
    else if |window| + 1 > cap then (window + [key])[1..]
    else window + [key]
  }

  function After(cap: nat, window: seq<string>, keys: seq<string>): seq<string>
    decreases keys
  {
    if keys == [] then window else After(cap, Noted(cap, window, keys[0]), keys[1..])
  }

  /** How many of the keys were not in the window when they came. */
  function Recorded(cap: nat, window: seq<string>, keys: seq<string>): nat
    decreases keys
  {
    if keys == [] then 0
    else (if keys[0] in window then 0 else 1) + Recorded(cap, Noted(cap, window, keys[0]), keys[1..])
  }

  lemma NotedIsHeld(cap: nat, window: seq<string>, key: string)
    requires cap > 0
    ensures key in Noted(cap, window, key)
    ensures key !in window ==> var next := Noted(cap, window, key); next[|next| - 1] == key
  {
    if key !in window {
      var next := Noted(cap, window, key);
      assert next[|next| - 1] == key;
    }
  }

  ghost predicate Distinct(window: seq<string>) {
    forall i, j :: 0 <= i < j < |window| ==> window[i] != window[j]
  }

  ghost predicate WindowGood(cap: nat, window: seq<string>) {
    Distinct(window) && |window| <= cap
  }

  ghost predicate StateGood(st: State) {
    WindowGood(st.cap, st.window) && forall k :: k in st.seen <==> k in st.window
  }

  function KeyList(arrivals: seq<Frame>): seq<string> {
    seq(|arrivals|, i requires 0 <= i < |arrivals| => DedupKey(arrivals[i]))
  }

  function Elements(keys: seq<string>): set<string> {
    set k | k in keys
  }

  lemma NotedKeepsGood(cap: nat, window: seq<string>, key: string)
    requires WindowGood(cap, window)
    ensures WindowGood(cap, Noted(cap, window, key))
    ensures forall k :: k in Noted(cap, window, key) ==> k in window || k == key
  {
  }

  lemma {:induction false} DrainKeepsWindow(st: State)
    ensures Drain(st).0 == st.(buffered := Drain(st).0.buffered, next := Drain(st).0.next)
    decreases |st.buffered|
  {
    if st.next in st.buffered && !Incomplete(st.buffered[st.next]) {
      DrainStep(st);
      DrainKeepsWindow(AfterSlot(st));
    }
  }

  lemma StepNotes(st: State, f: Frame)
    requires StateGood(st)
    ensures StateGood(Step(st, f).0)
    ensures Step(st, f).0.cap == st.cap
    ensures Step(st, f).0.window == Noted(st.cap, st.window, DedupKey(f))
  {
    var key := DedupKey(f);
    NotedKeepsGood(st.cap, st.window, key);
    if key !in st.seen {
      var marked := MarkSeen(st, key);
      assert marked.window == Noted(st.cap, st.window, key);
      MarkKeepsSeen(st, key);
      if Places(st, f) {
        DrainKeepsWindow(Place(st, f));
      }
    }
  }

  lemma MarkKeepsSeen(st: State, key: string)
    requires StateGood(st) && key !in st.seen
    ensures forall k :: k in MarkSeen(st, key).seen <==> k in MarkSeen(st, key).window
  {
    var all := st.window + [key];
    NotedKeepsGood(st.cap + 1, st.window, key);
    assert all == [all[0]] + all[1..];
    assert forall k :: k in all <==> k in st.seen + {key};
    FirstIsOutsideRest(all);
  }

  lemma FirstIsOutsideRest(window: seq<string>)
    requires Distinct(window) && window != []
    ensures window[0] !in window[1..]
  {
  }

  lemma {:induction false} AfterAppend(cap: nat, window: seq<string>, a: seq<string>, b: seq<string>)
    ensures After(cap, window, a + b) == After(cap, After(cap, window, a), b)
    decreases a
  {
    if a == [] {
      assert a + b == b;
    } else {
      assert (a + b)[0] == a[0] && (a + b)[1..] == a[1..] + b;
      AfterAppend(cap, Noted(cap, window, a[0]), a[1..], b);
    }
  }

  lemma {:induction false} RunKeepsWindow(start: nat, cap: nat, arrivals: seq<Frame>)
    ensures StateGood(Run(start, cap, arrivals).0)
    ensures Run(start, cap, arrivals).0.cap == cap
    ensures Run(start, cap, arrivals).0.window == After(cap, [], KeyList(arrivals))
  {
    if arrivals != [] {
      var init, f := arrivals[..|arrivals| - 1], arrivals[|arrivals| - 1];
      assert arrivals == init + [f];
      RunKeepsWindow(start, cap, init);
      RunSnoc(start, cap, init, f);
      StepNotes(Run(start, cap, init).0, f);
      assert KeyList(arrivals) == KeyList(init) + [DedupKey(f)];
      AfterAppend(cap, [], KeyList(init), [DedupKey(f)]);
      AfterCons(cap, After(cap, [], KeyList(init)), DedupKey(f), []);
      assert [DedupKey(f)] + [] == [DedupKey(f)];
    }
  }

  lemma {:induction false} OutsideStaysOutside(cap: nat, window: seq<string>, keys: seq<string>, key: string)
    requires WindowGood(cap, window) && key !in window && key !in keys
    ensures key !in After(cap, window, keys)
    decreases keys
  {
    if keys != [] {
      assert keys[0] in keys;
      NotedKeepsGood(cap, window, keys[0]);
      OutsideStaysOutside(cap, Noted(cap, window, keys[0]), keys[1..], key);
    }
  }

  /** A key at place `i` stays until everything ahead of it and it itself have been pushed out. */
  lemma {:induction false} HeldIff(cap: nat, window: seq<string>, keys: seq<string>, i: nat)
    requires WindowGood(cap, window) && i < |window| && window[i] !in keys
    ensures window[i] in After(cap, window, keys) <==> Recorded(cap, window, keys) < i + 1 + cap - |window|
    decreases keys
  {
    if keys != [] {
      var next := Noted(cap, window, keys[0]);
      assert keys[0] in keys;
      NotedKeepsGood(cap, window, keys[0]);
      if keys[0] in window || |window| < cap {
        HeldIff(cap, next, keys[1..], i);
      } else if i > 0 {
        assert next[i - 1] == window[i];
        HeldIff(cap, next, keys[1..], i - 1);
      } else {
        assert window[0] !in next;
        OutsideStaysOutside(cap, next, keys[1..], window[0]);
      }
    }
  }

  /** A key just recorded is forgotten once `cap` more keys are recorded. */
  lemma RecordedKeyIsHeldIff(cap: nat, window: seq<string>, key: string, keys: seq<string>)
    requires WindowGood(cap, window) && key !in window && key !in keys
    ensures key in After(cap, Noted(cap, window, key), keys) <==>
            Recorded(cap, Noted(cap, window, key), keys) < cap
  {
    var next := Noted(cap, window, key);
    NotedKeepsGood(cap, window, key);
    if cap == 0 {
      OutsideStaysOutside(cap, next, keys, key);
    } else {
      assert next[|next| - 1] == key;
      HeldIff(cap, next, keys, |next| - 1);
    }
  }

  /** Every key outside the window is recorded at least once. */
  lemma {:induction false} NewKeysAreRecorded(cap: nat, window: seq<string>, keys: seq<string>)
    ensures |Elements(keys) - Elements(window)| <= Recorded(cap, window, keys)
    decreases keys
  {
    if keys != [] {
      var next := Noted(cap, window, keys[0]);
      NewKeysAreRecorded(cap, next, keys[1..]);
      var rest := Elements(keys[1..]) - Elements(next);
      assert Elements(keys) - Elements(window) <= rest + if keys[0] in window then {} else {keys[0]} by {
        forall k | k in keys && k !in window ensures k == keys[0] || (k in keys[1..] && k !in next) {
          if k != keys[0] {
            assert k in keys[1..];
          }
        }
      }
      SubsetIsSmaller(Elements(keys) - Elements(window), rest + if keys[0] in window then {} else {keys[0]});
    }
  }

  lemma {:induction false} DistinctElements(window: seq<string>)
    requires Distinct(window)
    ensures |Elements(window)| == |window|
  {
    if window != [] {
      var init, last := window[..|window| - 1], window[|window| - 1];
      DistinctElements(init);
      assert Elements(window) == Elements(init) + {last};
    }
  }

  /** A key pushed out of the window has been followed by `cap` different ones. */
  lemma {:induction false} PushedOutByMany(cap: nat, window: seq<string>, keys: seq<string>, i: nat)
    requires WindowGood(cap, window) && i < |window| && window[i] !in After(cap, window, keys)
    ensures |Elements(window[i + 1..]) + Elements(keys)| >= cap
    decreases keys
  {
    assert keys != [];
    var next := Noted(cap, window, keys[0]);
    NotedKeepsGood(cap, window, keys[0]);
    if |window| == cap && i == 0 && keys[0] !in window {
      PushedOutNow(cap, window, keys);
    } else {
      var j := if |window| < cap || keys[0] in window then i else i - 1;
      PushedOutByMany(cap, next, keys[1..], j);
      NotedTail(cap, window, keys[0], i, j);
      SubsetIsSmaller(Elements(next[j + 1..]) + Elements(keys[1..]), Elements(window[i + 1..]) + Elements(keys));
    }
  }

  lemma PushedOutNow(cap: nat, window: seq<string>, keys: seq<string>)
    requires WindowGood(cap, window) && |window| == cap > 0 && keys != [] && keys[0] !in window
    ensures |Elements(window[1..]) + Elements(keys)| >= cap
  {
    var next := Noted(cap, window, keys[0]);
    assert next == window[1..] + [keys[0]];
    NotedKeepsGood(cap, window, keys[0]);
    DistinctElements(next);
    SubsetIsSmaller(Elements(next), Elements(window[1..]) + Elements(keys));
  }

  lemma NotedTail(cap: nat, window: seq<string>, key: string, i: nat, j: nat)
    requires WindowGood(cap, window) && i < |window|
    requires !(|window| == cap && i == 0 && key !in window)
    requires j == if |window| < cap || key in window then i else i - 1
    ensures j < |Noted(cap, window, key)| && Noted(cap, window, key)[j] == window[i]
    ensures Elements(Noted(cap, window, key)[j + 1..]) <= Elements(window[i + 1..]) + {key}
  {
    var next := Noted(cap, window, key);
    if key !in window {
      assert next[j + 1..] == window[i + 1..] + [key];
    }
  }

  lemma FewKeysKeep(cap: nat, window: seq<string>, key: string, keys: seq<string>)
    requires WindowGood(cap, window) && key !in window && key !in keys && |Elements(keys)| < cap
    ensures Recorded(cap, Noted(cap, window, key), keys) < cap
  {
    var next := Noted(cap, window, key);
    NotedKeepsGood(cap, window, key);
    RecordedKeyIsHeldIff(cap, window, key, keys);
    var last := |next| - 1;
    assert next[last] == key;
    assert Elements(next[last + 1..]) + Elements(keys) == Elements(keys);
    if next[last] !in After(cap, next, keys) {
      PushedOutByMany(cap, next, keys, last);
    }
  }

  // ---------------------------------------------------------------------------------------------
  // The control plane
  // ---------------------------------------------------------------------------------------------

  function Keys(arrivals: seq<Frame>): set<string> {
    set f | f in arrivals :: DedupKey(f)
  }

  lemma {:induction false} WideWindowForgetsNothing(start: nat, cap: nat, arrivals: seq<Frame>)
    requires |Keys(arrivals)| <= cap
    ensures Run(start, cap, arrivals).0.seen == Keys(arrivals)
    ensures |Run(start, cap, arrivals).0.window| == |Keys(arrivals)|
    ensures Run(start, cap, arrivals).0.cap == cap
  {
    if arrivals != [] {
      var init, f := arrivals[..|arrivals| - 1], arrivals[|arrivals| - 1];
      assert arrivals == init + [f];
      RunSnoc(start, cap, init, f);
      assert Keys(arrivals) == Keys(init) + {DedupKey(f)};
      SubsetIsSmaller(Keys(init), Keys(arrivals));
      WideWindowForgetsNothing(start, cap, init);
      var st := Run(start, cap, init).0;
      if Places(st, f) {
        var _ := RunReleases(start, cap, init);
        PlacingKeepsSlotsGood(st, f);
        DrainTrims(Place(st, f));
      }
    }
  }

  lemma SubsetIsSmaller<T>(a: set<T>, b: set<T>)
    requires a <= b
    ensures |a| <= |b|
  {
    assert b == a + (b - a);
  }

  /**
   * While the distinct keys fit the window, every control frame is handed over exactly once, however
   * often it arrives.
   */
  lemma {:induction false} ControlIsExactlyOnce(start: nat, cap: nat, arrivals: seq<Frame>, f: Frame)
    requires |Keys(arrivals)| <= cap
    requires forall g :: g in arrivals && DedupKey(g) == DedupKey(f) ==> g == f
    requires f.entry.None?
    ensures multiset(Run(start, cap, arrivals).1)[f] == if f in arrivals then 1 else 0
  {
    if arrivals != [] {
      var init, g := arrivals[..|arrivals| - 1], arrivals[|arrivals| - 1];
      assert arrivals == init + [g];
      RunSnoc(start, cap, init, g);
      assert Keys(init) <= Keys(arrivals);
      SubsetIsSmaller(Keys(init), Keys(arrivals));
      ControlIsExactlyOnce(start, cap, init, f);
      WideWindowForgetsNothing(start, cap, init);
      var st := Run(start, cap, init).0;
      var ready := Step(st, g).1;
      assert DedupKey(f) in Keys(init) <==> f in init;
      var _ := RunReleases(start, cap, init);
      var groups := StepReleases(st, g);
      if g.entry.Some? {
        ContentHasNoControl(st.next, groups, f);
        assert f !in ready;
      }
    }
  }

  lemma {:induction false} ContentHasNoControl(start: nat, groups: seq<seq<Frame>>, f: Frame)
    requires Messages(start, groups) && f.entry.None?
    ensures f !in Flatten(groups)
    decreases groups
  {
    if groups != [] {
      MessagesTail(start, groups);
      ContentHasNoControl(start + 1, groups[1..], f);
    }
  }

  lemma KeyListElements(arrivals: seq<Frame>)
    ensures Elements(KeyList(arrivals)) == Keys(arrivals)
    ensures forall k :: k in KeyList(arrivals) <==> k in Keys(arrivals)
  {
    forall k ensures k in KeyList(arrivals) <==> k in Keys(arrivals) {
      if k in KeyList(arrivals) {
        var i :| 0 <= i < |arrivals| && KeyList(arrivals)[i] == k;
        assert arrivals[i] in arrivals;
      }
      if k in Keys(arrivals) {
        var f :| f in arrivals && DedupKey(f) == k;
        var i :| 0 <= i < |arrivals| && arrivals[i] == f;
        assert KeyList(arrivals)[i] == k;
      }
    }
  }

  /** The window at an arrival of `f`, after it, and after what comes next. */
  lemma WindowsAround(start: nat, cap: nat, before: seq<Frame>, f: Frame, between: seq<Frame>)
    ensures var window := Run(start, cap, before).0.window;
            && WindowGood(cap, window)
            && Run(start, cap, before + [f] + between).0.window
               == After(cap, Noted(cap, window, DedupKey(f)), KeyList(between))
  {
    RunKeepsWindow(start, cap, before);
    RunKeepsWindow(start, cap, before + [f] + between);
    KeyListAround(before, f, between);
    AfterAppend(cap, [], KeyList(before), [DedupKey(f)] + KeyList(between));
    AfterCons(cap, After(cap, [], KeyList(before)), DedupKey(f), KeyList(between));
  }

  lemma KeyListAround(before: seq<Frame>, f: Frame, between: seq<Frame>)
    ensures KeyList(before + [f] + between) == KeyList(before) + ([DedupKey(f)] + KeyList(between))
  {
  }

  lemma AfterCons(cap: nat, window: seq<string>, key: string, keys: seq<string>)
    ensures After(cap, window, [key] + keys) == After(cap, Noted(cap, window, key), keys)
  {
    assert ([key] + keys)[1..] == keys;
  }

  /**
   * For every window size: a control frame handed over once is handed over again exactly when at least
   * `cap` keys were recorded in between.
   */
  lemma ControlRepeatsIff(start: nat, cap: nat, before: seq<Frame>, f: Frame, between: seq<Frame>)
    requires f.entry.None?
    requires DedupKey(f) !in Run(start, cap, before).0.seen && DedupKey(f) !in Keys(between)
    ensures Step(Run(start, cap, before).0, f).1 == [f]
    ensures var window := Noted(cap, Run(start, cap, before).0.window, DedupKey(f));
            Step(Run(start, cap, before + [f] + between).0, f).1 ==
            if Recorded(cap, window, KeyList(between)) >= cap then [f] else []
  {
    KeyListElements(between);
    WindowsAround(start, cap, before, f, between);
    RunKeepsWindow(start, cap, before);
    RunKeepsWindow(start, cap, before + [f] + between);
    RecordedKeyIsHeldIff(cap, Run(start, cap, before).0.window, DedupKey(f), KeyList(between));
  }

  /**
   * Fewer than `cap` distinct keys in between are too few, and `cap` that never came before are enough;
   * keys the window already held count for nothing.
   */
  lemma ControlRepeatsAfterNewKeys(start: nat, cap: nat, before: seq<Frame>, f: Frame, between: seq<Frame>)
    requires f.entry.None?
    requires DedupKey(f) !in Run(start, cap, before).0.seen && DedupKey(f) !in Keys(between)
    ensures var again := Step(Run(start, cap, before + [f] + between).0, f).1;
            && (|Keys(between)| < cap ==> again == [])
            && (|Keys(between) - Keys(before)| >= cap ==> again == [f])
            && (Keys(between) !! Keys(before) ==> (again == [f] <==> |Keys(between)| >= cap))
  {
    var key, keys := DedupKey(f), KeyList(between);
    var window := Run(start, cap, before).0.window;
    ControlRepeatsIff(start, cap, before, f, between);
    RunKeepsWindow(start, cap, before);
    KeyListElements(between);
    WindowHoldsOldKeys(start, cap, before);
    RecordedBounds(cap, window, key, keys, Keys(before));
    assert Keys(between) !! Keys(before) ==> Keys(between) - Keys(before) == Keys(between);
  }

  lemma RecordedBounds(cap: nat, window: seq<string>, key: string, keys: seq<string>, earlier: set<string>)
    requires WindowGood(cap, window) && Elements(window) <= earlier && key !in window && key !in keys
    ensures |Elements(keys)| < cap ==> Recorded(cap, Noted(cap, window, key), keys) < cap
    ensures |Elements(keys) - earlier| <= Recorded(cap, Noted(cap, window, key), keys)
  {
    var next := Noted(cap, window, key);
    NotedKeepsGood(cap, window, key);
    NewKeysAreRecorded(cap, next, keys);
    SubsetIsSmaller(Elements(keys) - earlier, Elements(keys) - Elements(next));
    if |Elements(keys)| < cap {
      FewKeysKeep(cap, window, key, keys);
    }
  }

  lemma {:induction false} WindowHoldsOldKeys(start: nat, cap: nat, arrivals: seq<Frame>)
    ensures Elements(Run(start, cap, arrivals).0.window) <= Keys(arrivals)
  {
    if arrivals != [] {
      var init, f := arrivals[..|arrivals| - 1], arrivals[|arrivals| - 1];
      assert arrivals == init + [f];
      RunKeepsWindow(start, cap, init);
      RunSnoc(start, cap, init, f);
      StepNotes(Run(start, cap, init).0, f);
      NotedKeepsGood(cap, Run(start, cap, init).0.window, DedupKey(f));
      WindowHoldsOldKeys(start, cap, init);
      assert Keys(init) <= Keys(arrivals) && DedupKey(f) in Keys(arrivals);
    }
  }

  function KeysOf(received: set<Frame>): set<string> {
    set g | g in received :: DedupKey(g)
  }

  /** Some order of a set of frames, each once. */
  lemma {:induction false} Listing(frames: set<Frame>) returns (list: seq<Frame>)
    ensures Received(list) == frames
  {
    if frames == {} {
      list := [];
    } else {
      var f :| f in frames;
      var rest := Listing(frames - {f});
      list := rest + [f];
      assert Received(list) == Received(rest) + {f};
    }
  }

  /**
   * Which received sets let a control frame be repeated: some order of arrival hands it over more than
   * once if and only if the set has more than `cap` keys.
   */
  lemma ControlCanRepeatIff(start: nat, cap: nat, received: set<Frame>, f: Frame)
    requires f in received && f.entry.None?
    requires forall g :: g in received && DedupKey(g) == DedupKey(f) ==> g == f
    ensures (exists arrivals :: Received(arrivals) == received && multiset(Run(start, cap, arrivals).1)[f] > 1)
            <==> |KeysOf(received)| > cap
  {
    if |KeysOf(received)| > cap {
      ControlCanRepeat(start, cap, received, f);
    } else {
      forall arrivals | Received(arrivals) == received
        ensures multiset(Run(start, cap, arrivals).1)[f] <= 1
      {
        ReceivedKeys(arrivals);
        assert forall g :: g in arrivals ==> g in Received(arrivals);
        ControlIsExactlyOnce(start, cap, arrivals, f);
      }
    }
  }

  lemma ReceivedKeys(arrivals: seq<Frame>)
    ensures Keys(arrivals) == KeysOf(Received(arrivals))
  {
  }

  lemma ControlCanRepeat(start: nat, cap: nat, received: set<Frame>, f: Frame)
    requires f in received && f.entry.None? && |KeysOf(received)| > cap
    requires forall g :: g in received && DedupKey(g) == DedupKey(f) ==> g == f
    ensures exists arrivals :: Received(arrivals) == received && multiset(Run(start, cap, arrivals).1)[f] > 1
  {
    var others := Listing(received - {f});
    ReceivedKeys(others);
    assert KeysOf(received - {f}) == KeysOf(received) - {DedupKey(f)};
    RepeatsAround(start, cap, f, others);
    ReceivedAround(f, others);
    assert received - {f} + {f} == received;
  }

  lemma ReceivedAround(f: Frame, others: seq<Frame>)
    ensures Received([f] + others + [f]) == Received(others) + {f}
  {
  }

  lemma RepeatsAround(start: nat, cap: nat, f: Frame, others: seq<Frame>)
    requires f.entry.None? && DedupKey(f) !in Keys(others) && |Keys(others)| >= cap
    ensures multiset(Run(start, cap, [f] + others + [f]).1)[f] > 1
  {
    ControlRepeatsIff(start, cap, [], f, others);
    ControlRepeatsAfterNewKeys(start, cap, [], f, others);
    assert [] + [f] == [f];
    RunSnoc(start, cap, [], f);
    RunSnoc(start, cap, [f] + others, f);
    OutputStays(start, cap, [f], others);
  }

  lemma {:induction false} OutputStays(start: nat, cap: nat, arrivals: seq<Frame>, more: seq<Frame>)
    ensures Run(start, cap, arrivals).1 <= Run(start, cap, arrivals + more).1
    decreases |more|
  {
    if more == [] {
      assert arrivals + more == arrivals;
    } else {
      var init, f := more[..|more| - 1], more[|more| - 1];
      assert arrivals + more == (arrivals + init) + [f];
      OutputStays(start, cap, arrivals, init);
      RunSnoc(start, cap, arrivals + init, f);
    }
  }
}
