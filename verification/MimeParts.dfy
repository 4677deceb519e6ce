/**
 The parts of a multipart body (section 5.1.1 of RFC 2046): the text between the occurrences of the
 delimiter, found from left to right. The boundary is given; how it is cut out of a header is left out.
 */
module MimeParts {
  import opened Options
  import opened Strings

  /** All pieces of a text from an offset on between occurrences of the delimiter, which do not overlap. */
  function Pieces(content: string, delim: string, start: nat): (r: seq<string>)
    requires delim != "" && start <= |content|
    ensures r != []
    decreases |content| - start
  {
    var k := Find(content, delim, start);
    if k.None? then [content[start..]] else [content[start..k.value]] + Pieces(content, delim, k.value + |delim|)
  }

  /** How often the delimiter is found, each time behind the occurrence before. */
  function Occurrences(content: string, delim: string, from: nat): nat
    requires delim != ""
    decreases |content| - from
  {
    var k := Find(content, delim, from);
    if k.None? then 0 else 1 + Occurrences(content, delim, k.value + |delim|)
  }

  function Joined(ps: seq<string>, delim: string): string
    requires ps != []
  {
    if |ps| == 1 then ps[0] else ps[0] + (delim + Joined(ps[1..], delim))
  }

  function Front(ps: seq<string>): seq<string>
    requires ps != []
  {
    ps[..|ps| - 1]
  }

  /** The children are what stands between two delimiters: all pieces but the first and the last. */
  function Middle(ps: seq<string>): seq<string> {
    if |ps| <= 1 then [] else Front(ps[1..])
  }

  lemma FrontOfCons(p: string, ps: seq<string>)
    requires ps != []
    ensures Front([p] + ps) == [p] + Front(ps) && Middle([p] + ps) == Front(ps)
  {
    assert ([p] + ps)[1..] == ps;
  }

  /** The boundary loop of parsePart: the texts handed on for the children. */
  method ChildTexts(content: string, boundary: string) returns (children: seq<string>)
    ensures children == if boundary == "" then [] else Middle(Pieces(content, "--" + boundary, 0))
  {
    hide Pieces, Find;
    children := [];
    if boundary == "" { return; }
    var delim := "--" + boundary;
    var at := Find(content, delim, 0);
    ghost var all := Middle(Pieces(content, delim, 0));
    FirstCut(content, delim);
    while at.Some?
      invariant at.Some? ==> CutSoFar(content, delim, children, at.value + |delim|, all)
      invariant at.None? ==> all == children
      decreases |content| - (if at.Some? then at.value else |content|)
    {
      var start := at.value + |delim|;
      var end := Find(content, delim, start);
      TakeChild(children, content, delim, start, all);
      if end.None? { break; }
      children := children + [content[start..end.value]];
      at := Find(content, delim, end.value);
    }
  }

  /** These children have been cut off in front of the offset. */
  ghost predicate CutSoFar(content: string, delim: string, children: seq<string>, start: nat, all: seq<string>) {
    delim != "" && start <= |content| && all == children + Front(Pieces(content, delim, start))
  }

  lemma FirstCut(content: string, delim: string)
    requires delim != ""
    ensures var at, all := Find(content, delim, 0), Middle(Pieces(content, delim, 0));
            if at.None? then all == [] else CutSoFar(content, delim, [], at.value + |delim|, all)
  {
    hide Find;
    var at := Find(content, delim, 0);
    if at.Some? {
      FrontOfCons(content[0..at.value], Pieces(content, delim, at.value + |delim|));
    }
  }

  lemma TakeChild(children: seq<string>, content: string, delim: string, start: nat, all: seq<string>)
    requires CutSoFar(content, delim, children, start, all)
    ensures var end := Find(content, delim, start);
            if end.None? then all == children
            else Find(content, delim, end.value) == end
                 && CutSoFar(content, delim, children + [content[start..end.value]], end.value + |delim|, all)
  {
    var end := Find(content, delim, start);
    if end.Some? {
      FrontOfCons(content[start..end.value], Pieces(content, delim, end.value + |delim|));
    }
  }

  // ------------------------------------------------------------------ laws

  lemma {:induction false} OnePieceMore(content: string, delim: string, start: nat)
    requires delim != "" && start <= |content|
    ensures |Pieces(content, delim, start)| == Occurrences(content, delim, start) + 1
    decreases |content| - start
  {
    var k := Find(content, delim, start);
    if k.Some? {
      OnePieceMore(content, delim, k.value + |delim|);
    }
  }

  /** One child fewer than there are delimiters. */
  lemma ChildrenCounted(content: string, delim: string)
    requires delim != ""
    ensures var n := Occurrences(content, delim, 0);
            |Middle(Pieces(content, delim, 0))| == if n == 0 then 0 else n - 1
  {
    OnePieceMore(content, delim, 0);
  }

  lemma CutAt(content: string, delim: string, start: nat, k: nat)
    requires start <= k && OccursAt(content, delim, k)
    ensures content[start..] == content[start..k] + (delim + content[k + |delim|..])
  {
    assert content[k..] == content[k..k + |delim|] + content[k + |delim|..];
    assert content[start..] == content[start..k] + content[k..];
  }

  lemma {:induction false} PiecesRebuild(content: string, delim: string, start: nat)
    requires delim != "" && start <= |content|
    ensures Joined(Pieces(content, delim, start), delim) == content[start..]
    decreases |content| - start
  {
    var k := Find(content, delim, start);
    if k.Some? {
      PiecesRebuild(content, delim, k.value + |delim|);
      CutAt(content, delim, start, k.value);
    }
  }

  lemma {:induction false} LastJoins(ps: seq<string>, delim: string)
    requires |ps| > 1
    ensures Joined(ps, delim) == Joined(Front(ps), delim) + (delim + ps[|ps| - 1])
  {
    if |ps| > 2 {
      LastJoins(ps[1..], delim);
      var j := Joined(Front(ps[1..]), delim);
      assert Front(ps)[1..] == Front(ps[1..]);
      assert ps[0] + (delim + (j + (delim + ps[|ps| - 1]))) == (ps[0] + (delim + j)) + (delim + ps[|ps| - 1]);
    }
  }

  /** Text in front, the children joined by the delimiter, and the text behind are the whole content. */
  lemma ChildrenRebuild(content: string, delim: string)
    requires delim != ""
    ensures var ps := Pieces(content, delim, 0);
            if |ps| == 1 then content == ps[0]
            else if |ps| == 2 then content == ps[0] + (delim + ps[1])
            else content == ps[0] + (delim + (Joined(Middle(ps), delim) + (delim + ps[|ps| - 1])))
  {
    PiecesRebuild(content, delim, 0);
    var ps := Pieces(content, delim, 0);
    if |ps| > 2 {
      LastJoins(ps[1..], delim);
    }
  }

  /** No delimiter begins in the piece when one follows it. */
  predicate Closed(piece: string, delim: string) {
    Find(piece + delim, delim, 0) == Some(|piece|)
  }

  /** The delimiter occurs only at the joints. */
  predicate OnlyAtJoints(ps: seq<string>, delim: string)
    requires ps != []
  {
    if |ps| == 1 then Find(ps[0], delim, 0).None? else Closed(ps[0], delim) && OnlyAtJoints(ps[1..], delim)
  }

  lemma OccursInFront(a: string, b: string, delim: string, k: nat)
    requires k + |delim| <= |a|
    ensures OccursAt(a + b, delim, k) <==> OccursAt(a, delim, k)
  {
    assert (a + b)[k..k + |delim|] == a[k..k + |delim|];
  }

  /** What follows the delimiter does not matter for where it is found first. */
  lemma FoundAtJoint(piece: string, delim: string, rest: string)
    requires delim != ""
    ensures Closed(piece, delim) <==> Find(piece + (delim + rest), delim, 0) == Some(|piece|)
  {
    var short, long := piece + delim, piece + (delim + rest);
    assert long == short + rest;
    forall k | 0 <= k <= |piece| ensures OccursAt(long, delim, k) <==> OccursAt(short, delim, k) {
      OccursInFront(short, rest, delim, k);
    }
    NoneEarlier(short, delim, 0);
    NoneEarlier(long, delim, 0);
    if Closed(piece, delim) {
      FindIs(long, delim, 0, |piece|);
    } else if Find(long, delim, 0) == Some(|piece|) {
      FindIs(short, delim, 0, |piece|);
    }
  }

  lemma FirstJoint(content: string, delim: string, start: nat, piece: string, rest: string)
    requires delim != "" && start <= |content| && content[start..] == piece + (delim + rest)
    ensures Closed(piece, delim) <==> Find(content, delim, start) == Some(start + |piece|)
  {
    FindInRest(content, delim, start);
    FoundAtJoint(piece, delim, rest);
  }

  /** The piece in front of the first delimiter, and nothing behind it changes that. */
  lemma PieceCut(content: string, delim: string, start: nat)
    requires delim != "" && start <= |content| && Find(content, delim, start).Some?
    ensures Closed(content[start..Find(content, delim, start).value], delim)
  {
    var k := Find(content, delim, start).value;
    CutAt(content, delim, start, k);
    FirstJoint(content, delim, start, content[start..k], content[k + |delim|..]);
  }

  lemma ConsJoints(p: string, ps: seq<string>, delim: string)
    requires ps != []
    ensures OnlyAtJoints([p] + ps, delim) <==> Closed(p, delim) && OnlyAtJoints(ps, delim)
  {
    assert ([p] + ps)[1..] == ps;
  }

  lemma {:induction false} PiecesOnlyAtJoints(content: string, delim: string, start: nat)
    requires delim != "" && start <= |content|
    ensures OnlyAtJoints(Pieces(content, delim, start), delim)
    decreases |content| - start
  {
    hide Find, Closed;
    var k := Find(content, delim, start);
    if k.None? {
      FindInRest(content, delim, start);
    } else {
      PieceCut(content, delim, start);
      PiecesOnlyAtJoints(content, delim, k.value + |delim|);
      ConsJoints(content[start..k.value], Pieces(content, delim, k.value + |delim|), delim);
    }
  }

  lemma TailBehind(content: string, start: nat, p: string, delim: string, rest: string)
    requires start <= |content| && content[start..] == p + (delim + rest)
    ensures start + |p| + |delim| <= |content|
    ensures content[start..start + |p|] == p && content[start + |p| + |delim|..] == rest
  {
    var tail := content[start..];
    SliceOfSlice(content, start, |content|, 0, |p|);
    SliceOfSlice(content, start, |content|, |p| + |delim|, |tail|);
    assert tail[..|p|] == p && tail[|p| + |delim|..] == rest;
  }

  lemma PieceFirst(content: string, delim: string, start: nat, p: string, rest: string)
    requires delim != "" && start <= |content| && content[start..] == p + (delim + rest) && Closed(p, delim)
    ensures var next := start + |p| + |delim|;
            && next <= |content| && content[next..] == rest
            && Pieces(content, delim, start) == [p] + Pieces(content, delim, next)
  {
    FirstJoint(content, delim, start, p, rest);
    TailBehind(content, start, p, delim, rest);
  }

  lemma PieceLast(content: string, delim: string, start: nat)
    requires delim != "" && start <= |content| && Find(content[start..], delim, 0).None?
    ensures Pieces(content, delim, start) == [content[start..]]
  {
    FindInRest(content, delim, start);
  }

  lemma {:induction false} JointsAreFound(ps: seq<string>, delim: string, content: string, start: nat)
    requires delim != "" && ps != [] && OnlyAtJoints(ps, delim)
    requires start <= |content| && content[start..] == Joined(ps, delim)
    ensures Pieces(content, delim, start) == ps
    decreases |ps|
  {
    hide Find, Pieces, Closed;
    if |ps| == 1 {
      PieceLast(content, delim, start);
    } else {
      PieceFirst(content, delim, start, ps[0], Joined(ps[1..], delim));
      JointsAreFound(ps[1..], delim, content, start + |ps[0]| + |delim|);
    }
  }

  /** Joining pieces and cutting again gives the pieces exactly when the delimiter occurs only at the joints. */
  lemma JoinAndSplit(ps: seq<string>, delim: string)
    requires delim != "" && ps != []
    ensures Pieces(Joined(ps, delim), delim, 0) == ps <==> OnlyAtJoints(ps, delim)
  {
    PiecesOnlyAtJoints(Joined(ps, delim), delim, 0);
    if OnlyAtJoints(ps, delim) {
      JointsAreFound(ps, delim, Joined(ps, delim), 0);
    }
  }

  /**
   It is not enough that the pieces are free of the delimiter: with a boundary of dashes a piece that ends in a
   dash, whether or not it holds the delimiter, moves the cut.
   */
  lemma FreePiecesMayMove(piece: string, n: nat)
    requires n > 0 && piece != "" && piece[|piece| - 1] == '-'
    ensures !Closed(piece, seq(n, _ => '-'))
  {
    var delim, k := seq(n, _ => '-'), |piece| - 1;
    var s := piece + delim;
    assert s[k..k + n] == delim;
    if Find(s, delim, 0) == Some(|piece|) {
      NoneBefore(s, delim, 0, k);
    }
  }
}
