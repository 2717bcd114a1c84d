/** The keyframe scan that fixes an object's animated frame range: the
    first and last key times over the anim curves driving its nine
    transform channels. */
module FrameRange {
  import opened Outcomes

  /** Largest finite double, `DBL_MAX`: the starting value for the first key. */
  const DblMax: real := 1.7976931348623157e308

  /** Smallest positive normalised double, `DBL_MIN`: the starting value for the last key. */
  const DblMin: real := 2.2250738585072014e-308

  /** The channels whose incoming connections are scanned, in scan order. */
  const AnimAttrs: seq<string> := ["translateX", "translateY", "translateZ",
                                   "rotateX", "rotateY", "rotateZ",
                                   "scaleX", "scaleY", "scaleZ"]

  /** A node connected to a channel: an anim curve (whose function set may
      fail to attach) with its key times in frames, or anything else. */
  datatype Source = OtherNode | AnimCurve(attaches: bool, keys: seq<real>)

  /** The result of looking a channel up and asking for its incoming connections. */
  datatype Plug = QueryFailed | Connected(sources: seq<Source>)

  /** The object as the scan sees it; a channel missing from `plugs` is a failed lookup. */
  datatype Node = Node(isDependencyNode: bool, plugs: map<string, Plug>)

  datatype RangeError = NotADependencyNode | NoKeyframes

  datatype Range = Range(startFrame: real, endFrame: real)

  function Last(keys: seq<real>): real
    requires |keys| > 0
  {
    keys[|keys| - 1]
  }

  /** Key times are kept in time order by the host. */
  predicate TimeOrdered(keys: seq<real>)
  {
    forall i, j :: 0 <= i <= j < |keys| ==> keys[i] <= keys[j]
  }

  /** A curve counts iff it is an anim curve that attaches and has at least one key. */
  predicate Keyed(s: Source)
  {
    s.AnimCurve? && s.attaches && |s.keys| > 0
  }

  // ---------------------------------------------------------------------
  // The scan as written: two sentinels folded with std::min / std::max
  // ---------------------------------------------------------------------

  /** The running (start, end) pair of the scan. */
  datatype Bounds = Bounds(lo: real, hi: real)

  /** `std::min(a, b)`: `a` unless `b < a`. */
  function StdMin(a: real, b: real): real { if b < a then b else a }

  /** `std::max(a, b)`: `a` unless `a < b`. */
  function StdMax(a: real, b: real): real { if a < b then b else a }

  /** One curve's contribution: its first key to the start, its last to the end. */
  function Merge(acc: Bounds, keys: seq<real>): Bounds
    requires |keys| > 0
  {
    Bounds(StdMin(acc.lo, keys[0]), StdMax(acc.hi, Last(keys)))
  }

  /** The inner loop over one channel's connections, skipping what is not a keyed curve. */
  function ScanSources(acc: Bounds, sources: seq<Source>): Bounds
    decreases |sources|
  {
    if |sources| == 0 then acc
    else
      var s := sources[0];
      var acc' := if Keyed(s) then Merge(acc, s.keys) else acc;
      ScanSources(acc', sources[1..])
  }

  /** The outer loop over the channels, skipping failed lookups and failed queries. */
  function ScanAttrs(acc: Bounds, node: Node, attrs: seq<string>): Bounds
    decreases |attrs|
  {
    if |attrs| == 0 then acc
    else
      var a := attrs[0];
      var acc' := if a in node.plugs && node.plugs[a].Connected?
                  then ScanSources(acc, node.plugs[a].sources) else acc;
      ScanAttrs(acc', node, attrs[1..])
  }

  /** The range query exactly as written: the end sentinel is `DBL_MIN`, the
      smallest POSITIVE double, so an end that never rises above it reads as
      "no keyframes". */
  function ExtractAsWritten(node: Node): (r: Result<Range, RangeError>)
    ensures !node.isDependencyNode ==> r == Failure(NotADependencyNode)
    ensures r.Success? ==> r.value.startFrame != DblMax && r.value.endFrame != DblMin
  {
    if !node.isDependencyNode then Failure(NotADependencyNode)
    else
      var b := ScanAttrs(Bounds(DblMax, DblMin), node, AnimAttrs);
      if b.lo == DblMax || b.hi == DblMin then Failure(NoKeyframes)
      else Success(Range(b.lo, b.hi))
  }

  // ---------------------------------------------------------------------
  // What the scan looks at: the keyed curves, in scan order
  // ---------------------------------------------------------------------

  function KeyedKeys(sources: seq<Source>): (r: seq<seq<real>>)
    ensures forall c :: c in r ==> |c| > 0
  {
    if |sources| == 0 then []
    else (if Keyed(sources[0]) then [sources[0].keys] else []) + KeyedKeys(sources[1..])
  }

  /** The key lists of every keyed curve connected to one of `attrs`, in scan order. */
  function KeyedCurves(node: Node, attrs: seq<string>): (r: seq<seq<real>>)
    ensures forall c :: c in r ==> |c| > 0
  {
    if |attrs| == 0 then []
    else
      var a := attrs[0];
      (if a in node.plugs && node.plugs[a].Connected? then KeyedKeys(node.plugs[a].sources) else [])
      + KeyedCurves(node, attrs[1..])
  }

  /** A source list contributes exactly the keys of its keyed anim curves. */
  lemma {:induction false} KeyedKeysMembership(sources: seq<Source>, c: seq<real>)
    ensures c in KeyedKeys(sources) <==> exists i :: 0 <= i < |sources| && Keyed(sources[i]) && sources[i].keys == c
  {
    if |sources| > 0 {
      KeyedKeysMembership(sources[1..], c);
      if exists i :: 1 <= i < |sources| && Keyed(sources[i]) && sources[i].keys == c {
        var i :| 1 <= i < |sources| && Keyed(sources[i]) && sources[i].keys == c;
        assert sources[1..][i - 1] == sources[i];
      }
    }
  }

  /** Skipping rule of the scan: a key list is seen iff it belongs to an anim
      curve that attaches, has keys, and is connected to one of the scanned
      channels whose lookup and connection query succeed. */
  lemma {:induction false} KeyedCurvesMembership(node: Node, attrs: seq<string>, c: seq<real>)
    ensures c in KeyedCurves(node, attrs) <==>
      exists i :: 0 <= i < |attrs| && attrs[i] in node.plugs && node.plugs[attrs[i]].Connected?
                  && c in KeyedKeys(node.plugs[attrs[i]].sources)
  {
    if |attrs| > 0 {
      KeyedCurvesMembership(node, attrs[1..], c);
      if exists i :: 1 <= i < |attrs| && attrs[i] in node.plugs && node.plugs[attrs[i]].Connected?
                     && c in KeyedKeys(node.plugs[attrs[i]].sources) {
        var i :| 1 <= i < |attrs| && attrs[i] in node.plugs && node.plugs[attrs[i]].Connected?
                 && c in KeyedKeys(node.plugs[attrs[i]].sources);
        assert attrs[1..][i - 1] == attrs[i];
      }
    }
  }

  /** Folding `Merge` over key lists. */
  function FoldCurves(acc: Bounds, curves: seq<seq<real>>): Bounds
    requires forall c :: c in curves ==> |c| > 0
    decreases |curves|
  {
    if |curves| == 0 then acc else FoldCurves(Merge(acc, curves[0]), curves[1..])
  }

  lemma {:induction false} FoldAppend(acc: Bounds, a: seq<seq<real>>, b: seq<seq<real>>)
    requires forall c :: c in a ==> |c| > 0
    requires forall c :: c in b ==> |c| > 0
    ensures FoldCurves(acc, a + b) == FoldCurves(FoldCurves(acc, a), b)
    decreases |a|
  {
    if |a| > 0 {
      assert (a + b)[1..] == a[1..] + b;
      FoldAppend(Merge(acc, a[0]), a[1..], b);
    } else {
      assert a + b == b;
    }
  }

  lemma {:induction false} ScanSourcesIsFold(acc: Bounds, sources: seq<Source>)
    ensures ScanSources(acc, sources) == FoldCurves(acc, KeyedKeys(sources))
    decreases |sources|
  {
    if |sources| > 0 {
      var head := if Keyed(sources[0]) then [sources[0].keys] else [];
      ScanSourcesIsFold(if Keyed(sources[0]) then Merge(acc, sources[0].keys) else acc, sources[1..]);
      FoldAppend(acc, head, KeyedKeys(sources[1..]));
      if Keyed(sources[0]) {
        assert head[1..] == [];
      }
    }
  }

  /** The nested scan is a single fold over the keyed curves: everything it
      skips leaves the running bounds untouched. */
  lemma {:induction false} ScanIsFoldOfKeyedCurves(acc: Bounds, node: Node, attrs: seq<string>)
    ensures ScanAttrs(acc, node, attrs) == FoldCurves(acc, KeyedCurves(node, attrs))
    decreases |attrs|
  {
    if |attrs| > 0 {
      var a := attrs[0];
      var here := if a in node.plugs && node.plugs[a].Connected? then KeyedKeys(node.plugs[a].sources) else [];
      var acc' := if a in node.plugs && node.plugs[a].Connected? then ScanSources(acc, node.plugs[a].sources) else acc;
      if a in node.plugs && node.plugs[a].Connected? {
        ScanSourcesIsFold(acc, node.plugs[a].sources);
      }
      assert acc' == FoldCurves(acc, here);
      ScanIsFoldOfKeyedCurves(acc', node, attrs[1..]);
      FoldAppend(acc, here, KeyedCurves(node, attrs[1..]));
    }
  }

  /** The fold ends at the least first key and the greatest last key, each
      compared against the starting values. */
  lemma {:induction false} FoldBounds(acc: Bounds, curves: seq<seq<real>>)
    requires forall c :: c in curves ==> |c| > 0
    ensures var b := FoldCurves(acc, curves);
      && b.lo <= acc.lo && (forall c :: c in curves ==> b.lo <= c[0])
      && (b.lo == acc.lo || exists c :: c in curves && b.lo == c[0])
      && acc.hi <= b.hi && (forall c :: c in curves ==> Last(c) <= b.hi)
      && (b.hi == acc.hi || exists c :: c in curves && b.hi == Last(c))
    decreases |curves|
  {
    if |curves| > 0 {
      var m := Merge(acc, curves[0]);
      FoldBounds(m, curves[1..]);
      var b := FoldCurves(acc, curves);
      assert b == FoldCurves(m, curves[1..]);
      forall c | c in curves ensures b.lo <= c[0] && Last(c) <= b.hi {
        if c != curves[0] {
          assert c in curves[1..];
        }
      }
      if b.lo != acc.lo && b.lo == m.lo {
        assert b.lo == curves[0][0];
      }
      if b.hi != acc.hi && b.hi == m.hi {
        assert b.hi == Last(curves[0]);
      }
      if b.lo != m.lo {
        var c :| c in curves[1..] && b.lo == c[0];
        assert c in curves;
      }
      if b.hi != m.hi {
        var c :| c in curves[1..] && b.hi == Last(c);
        assert c in curves;
      }
    }
  }

  /** The scan as written succeeds iff the object is a dependency node, some
      keyed curve starts below `DBL_MAX` and some keyed curve ends above the
      positive `DBL_MIN`; its range is then the earliest first key and the
      latest last key of the keyed curves. */
  lemma AsWrittenCharacterised(node: Node)
    ensures var k := KeyedCurves(node, AnimAttrs);
      && (ExtractAsWritten(node).Success? <==>
            node.isDependencyNode
            && (exists c :: c in k && c[0] < DblMax)
            && (exists c :: c in k && Last(c) > DblMin))
      && (!node.isDependencyNode ==> ExtractAsWritten(node) == Failure(NotADependencyNode))
      && (ExtractAsWritten(node).Success? ==>
            var r := ExtractAsWritten(node).value;
            && (exists c :: c in k && r.startFrame == c[0])
            && (forall c :: c in k ==> r.startFrame <= c[0])
            && (exists c :: c in k && r.endFrame == Last(c))
            && (forall c :: c in k ==> Last(c) <= r.endFrame))
  {
    var k := KeyedCurves(node, AnimAttrs);
    ScanIsFoldOfKeyedCurves(Bounds(DblMax, DblMin), node, AnimAttrs);
    FoldBounds(Bounds(DblMax, DblMin), k);
  }

  /** Only the keyed curves matter: two nodes whose scanned channels carry
      the same keyed curves get the same answer. */
  lemma AsWrittenDependsOnlyOnKeyedCurves(n1: Node, n2: Node)
    requires n1.isDependencyNode == n2.isDependencyNode
    requires KeyedCurves(n1, AnimAttrs) == KeyedCurves(n2, AnimAttrs)
    ensures ExtractAsWritten(n1) == ExtractAsWritten(n2)
  {
    ScanIsFoldOfKeyedCurves(Bounds(DblMax, DblMin), n1, AnimAttrs);
    ScanIsFoldOfKeyedCurves(Bounds(DblMax, DblMin), n2, AnimAttrs);
  }

  /** With time-ordered keys a range the scan as written finds never ends
      before it starts: its start is some curve's first key, which that
      curve's last key, and so the range's end, does not precede. */
  lemma AsWrittenOrdered(node: Node)
    requires forall c :: c in KeyedCurves(node, AnimAttrs) ==> TimeOrdered(c)
    requires ExtractAsWritten(node).Success?
    ensures ExtractAsWritten(node).value.startFrame <= ExtractAsWritten(node).value.endFrame
  {
    var k := KeyedCurves(node, AnimAttrs);
    var r := ExtractAsWritten(node).value;
    AsWrittenCharacterised(node);
    var c :| c in k && r.startFrame == c[0];
    assert TimeOrdered(c);
    assert c[0] <= Last(c);
  }

  // ---------------------------------------------------------------------
  // The intended range: the hull of the keyed curves, no sentinels
  // ---------------------------------------------------------------------

  /** Earliest first key and latest last key, or nothing when no curve is keyed. */
  function Hull(curves: seq<seq<real>>): (r: Option<Range>)
    requires forall c :: c in curves ==> |c| > 0
    ensures r.None? <==> |curves| == 0
  {
    if |curves| == 0 then None
    else
      var b := FoldCurves(Bounds(curves[0][0], Last(curves[0])), curves[1..]);
      Some(Range(b.lo, b.hi))
  }

  /** The animated frame range of an object: fails when the object is not a
      dependency node or no scanned channel has a keyed curve. */
  function ExtractAnimationFrameRange(node: Node): (r: Result<Range, RangeError>)
    ensures !node.isDependencyNode ==> r == Failure(NotADependencyNode)
    ensures r.Success? <==> node.isDependencyNode && |KeyedCurves(node, AnimAttrs)| > 0
    ensures r.Failure? && node.isDependencyNode ==> r.error == NoKeyframes
  {
    if !node.isDependencyNode then Failure(NotADependencyNode)
    else match Hull(KeyedCurves(node, AnimAttrs))
      case None => Failure(NoKeyframes)
      case Some(range) => Success(range)
  }

  lemma HullBounds(curves: seq<seq<real>>)
    requires forall c :: c in curves ==> |c| > 0
    requires |curves| > 0
    ensures var r := Hull(curves).value;
      && (exists c :: c in curves && r.startFrame == c[0])
      && (forall c :: c in curves ==> r.startFrame <= c[0])
      && (exists c :: c in curves && r.endFrame == Last(c))
      && (forall c :: c in curves ==> Last(c) <= r.endFrame)
  {
    var c0 := curves[0];
    FoldBounds(Bounds(c0[0], Last(c0)), curves[1..]);
    forall c | c in curves && c != c0 ensures c in curves[1..] { }
    var b := FoldCurves(Bounds(c0[0], Last(c0)), curves[1..]);
    if b.lo != c0[0] {
      var c :| c in curves[1..] && b.lo == c[0];
      assert c in curves;
    }
    if b.hi != Last(c0) {
      var c :| c in curves[1..] && b.hi == Last(c);
      assert c in curves;
    }
  }

  /** The range is found iff some scanned channel carries a keyed curve; it
      then runs from the earliest first key to the latest last key, and with
      time-ordered keys it is never empty. */
  lemma RangeCharacterised(node: Node)
    ensures var k := KeyedCurves(node, AnimAttrs);
      && (ExtractAnimationFrameRange(node).Success? <==> node.isDependencyNode && |k| > 0)
      && (ExtractAnimationFrameRange(node).Success? ==>
            var r := ExtractAnimationFrameRange(node).value;
            && (exists c :: c in k && r.startFrame == c[0])
            && (forall c :: c in k ==> r.startFrame <= c[0])
            && (exists c :: c in k && r.endFrame == Last(c))
            && (forall c :: c in k ==> Last(c) <= r.endFrame)
            && ((forall c :: c in k ==> TimeOrdered(c)) ==> r.startFrame <= r.endFrame))
  {
    var k := KeyedCurves(node, AnimAttrs);
    if node.isDependencyNode && |k| > 0 {
      HullBounds(k);
      var r := ExtractAnimationFrameRange(node).value;
      if forall c :: c in k ==> TimeOrdered(c) {
        assert k[0] in k;
        assert TimeOrdered(k[0]);
        assert k[0][0] <= Last(k[0]);
      }
    }
  }

  /** With time-ordered keys a found range never ends before it starts. */
  lemma RangeOrdered(node: Node)
    requires forall c :: c in KeyedCurves(node, AnimAttrs) ==> TimeOrdered(c)
    requires ExtractAnimationFrameRange(node).Success?
    ensures ExtractAnimationFrameRange(node).value.startFrame <= ExtractAnimationFrameRange(node).value.endFrame
  {
    RangeCharacterised(node);
  }

  /** Folding from starting values the hull lies strictly inside of gives the hull. */
  lemma FoldFromOutsideIsHull(curves: seq<seq<real>>, lo0: real, hi0: real)
    requires forall c :: c in curves ==> |c| > 0
    requires |curves| > 0
    requires Hull(curves).value.startFrame < lo0 && Hull(curves).value.endFrame > hi0
    ensures FoldCurves(Bounds(lo0, hi0), curves)
            == Bounds(Hull(curves).value.startFrame, Hull(curves).value.endFrame)
  {
    var r := Hull(curves).value;
    var w := FoldCurves(Bounds(lo0, hi0), curves);
    assert w.lo == r.startFrame by {
      HullBounds(curves);
      FoldBounds(Bounds(lo0, hi0), curves);
      var c1 :| c1 in curves && r.startFrame == c1[0];
      assert w.lo <= c1[0] < lo0;
      var c3 :| c3 in curves && w.lo == c3[0];
      assert r.startFrame <= c3[0];
    }
    assert w.hi == r.endFrame by {
      HullBounds(curves);
      FoldBounds(Bounds(lo0, hi0), curves);
      var c2 :| c2 in curves && r.endFrame == Last(c2);
      assert hi0 < Last(c2) <= w.hi;
      var c4 :| c4 in curves && w.hi == Last(c4);
      assert Last(c4) <= r.endFrame;
    }
  }

  /** Where the intended range starts below `DBL_MAX` and ends above
      `DBL_MIN`, the scan as written agrees with it. */
  lemma AsWrittenAgreesAwayFromSentinels(node: Node)
    requires ExtractAnimationFrameRange(node).Success?
    requires ExtractAnimationFrameRange(node).value.startFrame < DblMax
    requires ExtractAnimationFrameRange(node).value.endFrame > DblMin
    ensures ExtractAsWritten(node) == ExtractAnimationFrameRange(node)
  {
    var k := KeyedCurves(node, AnimAttrs);
    ScanIsFoldOfKeyedCurves(Bounds(DblMax, DblMin), node, AnimAttrs);
    FoldFromOutsideIsHull(k, DblMax, DblMin);
  }

  /** With every last key at or below zero the end never rises above the
      positive `DBL_MIN`, so the scan as written reports no keyframes while
      the intended range exists and ends at the latest last key. */
  lemma NonPositiveEndIsLost(node: Node)
    requires node.isDependencyNode
    requires |KeyedCurves(node, AnimAttrs)| > 0
    requires forall c :: c in KeyedCurves(node, AnimAttrs) ==> Last(c) <= 0.0
    ensures ExtractAsWritten(node) == Failure(NoKeyframes)
    ensures ExtractAnimationFrameRange(node).Success?
    ensures ExtractAnimationFrameRange(node).value.endFrame <= 0.0
  {
    AsWrittenCharacterised(node);
    RangeCharacterised(node);
  }

  /** The object keyed at frames -10 and 0 is such an object. */
  lemma OtherChannelsUnplugged(n: Node)
    requires n.plugs == map["translateX" := Connected([AnimCurve(true, [-10.0, 0.0])])]
    ensures KeyedCurves(n, AnimAttrs[1..]) == []
  {
    var rest := AnimAttrs[1..];
    forall i | 0 <= i < |rest| ensures rest[i] !in n.plugs { }
    EmptyWhenUnplugged(n, rest);
  }

  lemma OnlyTranslateXKeyed(n: Node)
    requires n == Node(true, map["translateX" := Connected([AnimCurve(true, [-10.0, 0.0])])])
    ensures KeyedCurves(n, AnimAttrs) == [[-10.0, 0.0]]
  {
    var rest := AnimAttrs[1..];
    OtherChannelsUnplugged(n);
    var src := [AnimCurve(true, [-10.0, 0.0])];
    assert KeyedKeys(src) == [[-10.0, 0.0]] by {
      assert KeyedKeys(src[1..]) == [];
    }
    assert n.plugs[AnimAttrs[0]] == Connected(src);
    assert KeyedCurves(n, AnimAttrs) == KeyedKeys(src) + KeyedCurves(n, rest);
  }

  /** On that object the scan as written reports no keyframes, while the
      intended range is [-10, 0]. */
  lemma TranslateXEndingAtZeroIsLost(n: Node)
    requires n == Node(true, map["translateX" := Connected([AnimCurve(true, [-10.0, 0.0])])])
    ensures ExtractAsWritten(n) == Failure(NoKeyframes)
    ensures ExtractAnimationFrameRange(n) == Success(Range(-10.0, 0.0))
  {
    OnlyTranslateXKeyed(n);
    SingleCurveEndingAtZero(n);
  }

  lemma SingleCurveEndingAtZero(node: Node)
    requires node.isDependencyNode && KeyedCurves(node, AnimAttrs) == [[-10.0, 0.0]]
    ensures ExtractAsWritten(node) == Failure(NoKeyframes)
    ensures ExtractAnimationFrameRange(node) == Success(Range(-10.0, 0.0))
  {
    var k := KeyedCurves(node, AnimAttrs);
    assert forall c :: c in k ==> Last(c) <= 0.0 by {
      assert forall c :: c in k ==> c == [-10.0, 0.0];
    }
    NonPositiveEndIsLost(node);
    assert k[1..] == [];
    assert Hull(k) == Some(Range(-10.0, 0.0));
  }

  lemma {:induction false} EmptyWhenUnplugged(node: Node, attrs: seq<string>)
    requires forall i :: 0 <= i < |attrs| ==> attrs[i] !in node.plugs
    ensures KeyedCurves(node, attrs) == []
  {
    if |attrs| > 0 {
      EmptyWhenUnplugged(node, attrs[1..]);
    }
  }
}
