/** Resolving a focus path that names a node anywhere in the tree. */
module Focus {
  import opened Wrappers
  import opened Text

  /** The segments stand in the path in order, gaps allowed, letter case aside. */
  ghost predicate Embeds(segs: seq<string>, p: seq<string>) {
    segs == [] || (p != [] && ((EqualFold(p[0], segs[0]) && Embeds(segs[1..], p[1..])) || Embeds(segs, p[1..])))
  }

  /** Where a match that always takes the first fitting segment ends. */
  function GreedyEnd(segs: seq<string>, p: seq<string>): (end: Option<nat>)
    ensures end.Some? ==> end.value <= |p|
  {
    if segs == [] then Some(0)
    else if p == [] then None
    else
      match GreedyEnd(if EqualFold(p[0], segs[0]) then segs[1..] else segs, p[1..])
      case None => None
      case Some(n) => Some(n + 1)
  }

  lemma {:induction false} EmbedsTail(segs: seq<string>, p: seq<string>)
    requires segs != [] && Embeds(segs, p)
    ensures Embeds(segs[1..], p)
    decreases |p|
  {
    if EqualFold(p[0], segs[0]) && Embeds(segs[1..], p[1..]) {
      EmbedsLonger(segs[1..], p);
    } else {
      EmbedsTail(segs, p[1..]);
      EmbedsLonger(segs[1..], p);
    }
  }

  lemma EmbedsLonger(segs: seq<string>, p: seq<string>)
    requires p != [] && Embeds(segs, p[1..])
    ensures Embeds(segs, p)
  {
  }

  /** Taking the first fitting segment never loses a match. */
  lemma EmbedsStep(segs: seq<string>, p: seq<string>)
    requires segs != [] && p != []
    ensures Embeds(segs, p) <==> Embeds(if EqualFold(p[0], segs[0]) then segs[1..] else segs, p[1..])
  {
    if EqualFold(p[0], segs[0]) && Embeds(segs, p[1..]) {
      EmbedsTail(segs, p[1..]);
    }
  }

  /** The greedy match exists exactly when there is any, and ends no later than any: a
      prefix holds the segments exactly when it reaches that far. */
  lemma {:induction false} GreedyIsShortest(segs: seq<string>, p: seq<string>, n: nat)
    requires n <= |p|
    ensures Embeds(segs, p[..n]) <==> GreedyEnd(segs, p).Some? && GreedyEnd(segs, p).value <= n
    decreases |p|
  {
    if segs != [] && p != [] {
      var rest := if EqualFold(p[0], segs[0]) then segs[1..] else segs;
      if n > 0 {
        assert p[..n][1..] == p[1..][..n - 1];
        EmbedsStep(segs, p[..n]);
        GreedyIsShortest(rest, p[1..], n - 1);
      }
    }
  }

  /** The loop of one path: `matched` segments and the end of the last one. */
  method MatchPath(segs: seq<string>, p: seq<string>) returns (end: Option<nat>)
    requires segs != []
    ensures end == GreedyEnd(segs, p)
  {
    var j, k, last := 0, 0, 0;
    while k < |p| && j < |segs|
      invariant 0 <= j <= |segs| && 0 <= k <= |p|
      invariant GreedyEnd(segs, p) == Later(k, GreedyEnd(segs[j..], p[k..]))
      invariant j > 0 ==> 0 < last <= k
      invariant j == |segs| ==> last == k
      decreases |p| - k
    {
      assert segs[j..][1..] == segs[j + 1..] && p[k..][1..] == p[k + 1..];
      if EqualFold(p[k], segs[j]) {
        j := j + 1;
        last := k + 1;
      }
      k := k + 1;
    }
    return if j == |segs| then Some(last) else None;
  }

  function Later(k: nat, end: Option<nat>): Option<nat> {
    if end.Some? then Some(k + end.value) else None
  }

  /** The shortest prefix of any path that holds the segments; of equally short ones the
      first. */
  ghost predicate BestPrefix(segs: seq<string>, paths: seq<seq<string>>, best: seq<string>) {
    exists i :: 0 <= i < |paths| && Embeds(segs, best) && best <= paths[i]
      && (forall j, n :: 0 <= j < |paths| && 0 <= n <= |paths[j]| && Embeds(segs, paths[j][..n]) ==> |best| <= n)
      && (forall j :: 0 <= j < i && |best| <= |paths[j]| ==> !Embeds(segs, paths[j][..|best|]))
  }

  /** What the paths met so far offer. */
  ghost predicate BestSoFar(segs: seq<string>, paths: seq<seq<string>>, n: nat, best: Option<(nat, nat)>)
    requires n <= |paths|
  {
    match best
    case None => forall j :: 0 <= j < n ==> GreedyEnd(segs, paths[j]).None?
    case Some((i, end)) =>
      && i < n && GreedyEnd(segs, paths[i]) == Some(end)
      && (forall j :: 0 <= j < n && GreedyEnd(segs, paths[j]).Some? ==> end <= GreedyEnd(segs, paths[j]).value)
      && (forall j :: 0 <= j < i && GreedyEnd(segs, paths[j]).Some? ==> end < GreedyEnd(segs, paths[j]).value)
  }

  /** A focus no path holds is returned as it is; any other becomes the best prefix. */
  method ExpandFocus(paths: seq<seq<string>>, focus: string) returns (r: string)
    ensures focus == "" ==> r == ""
    ensures focus != "" && (forall i :: 0 <= i < |paths| ==> !Embeds(Split(focus, '.'), paths[i])) ==> r == focus
    ensures focus != "" && (exists i :: 0 <= i < |paths| && Embeds(Split(focus, '.'), paths[i])) ==>
      exists best :: BestPrefix(Split(focus, '.'), paths, best) && r == Join(best, '.')
  {
    if focus == "" {
      return "";
    }
    var segs := Split(focus, '.');
    var best: Option<(nat, nat)> := None;
    for i := 0 to |paths|
      invariant BestSoFar(segs, paths, i, best)
    {
      var end := MatchPath(segs, paths[i]);
      if end.Some? && (best.None? || end.value < best.value.1) {
        best := Some((i, end.value));
      }
    }
    forall i | 0 <= i < |paths|
      ensures Embeds(segs, paths[i]) <==> GreedyEnd(segs, paths[i]).Some?
    {
      GreedyIsShortest(segs, paths[i], |paths[i]|);
      assert paths[i][..|paths[i]|] == paths[i];
    }
    match best {
      case None =>
        return focus;
      case Some((i, end)) =>
        BestIsShortest(segs, paths, i, end);
        return Join(paths[i][..end], '.');
    }
  }

  lemma BestIsShortest(segs: seq<string>, paths: seq<seq<string>>, i: nat, end: nat)
    requires BestSoFar(segs, paths, |paths|, Some((i, end)))
    ensures end <= |paths[i]| && BestPrefix(segs, paths, paths[i][..end])
  {
    var best := paths[i][..end];
    GreedyIsShortest(segs, paths[i], end);
    forall j, n | 0 <= j < |paths| && 0 <= n <= |paths[j]| && Embeds(segs, paths[j][..n])
      ensures |best| <= n
    {
      GreedyIsShortest(segs, paths[j], n);
    }
    forall j | 0 <= j < i && |best| <= |paths[j]|
      ensures !Embeds(segs, paths[j][..|best|])
    {
      GreedyIsShortest(segs, paths[j], |best|);
    }
  }

  // ---- the same in plain terms ----

  /** Where the segments stand in the path: ascending, each the same in capitals. */
  ghost predicate StandsIn(segs: seq<string>, p: seq<string>, at: seq<nat>) {
    && |at| == |segs|
    && (forall i :: 0 <= i < |at| ==> at[i] < |p| && ToUpper(p[at[i]]) == ToUpper(segs[i]))
    && forall i, j :: 0 <= i < j < |at| ==> at[i] < at[j]
  }

  function Shifted(at: seq<nat>): seq<nat> {
    seq(|at|, i requires 0 <= i < |at| => at[i] + 1)
  }

  lemma {:induction false} EmbedsAt(segs: seq<string>, p: seq<string>) returns (at: seq<nat>)
    requires Embeds(segs, p)
    ensures StandsIn(segs, p, at)
  {
    at := [];
    if segs != [] {
      if EqualFold(p[0], segs[0]) && Embeds(segs[1..], p[1..]) {
        var rest := EmbedsAt(segs[1..], p[1..]);
        EqualFoldPlain(p[0], segs[0]);
        at := [0] + Shifted(rest);
        assert forall i :: 0 < i < |at| ==> at[i] == rest[i - 1] + 1 && segs[i] == segs[1..][i - 1];
      } else {
        var rest := EmbedsAt(segs, p[1..]);
        at := Shifted(rest);
        assert forall i :: 0 <= i < |at| ==> at[i] == rest[i] + 1;
      }
    }
  }

  lemma {:induction false} AtEmbeds(segs: seq<string>, p: seq<string>, at: seq<nat>)
    requires StandsIn(segs, p, at)
    ensures Embeds(segs, p)
    decreases |p|
  {
    if segs != [] {
      assert at[0] < |p|;
      var back := seq(|at|, i requires 0 <= i < |at| => if at[i] > 0 then at[i] - 1 else 0);
      if at[0] == 0 {
        EqualFoldPlain(p[0], segs[0]);
        AtEmbeds(segs[1..], p[1..], back[1..]);
      } else {
        AtEmbeds(segs, p[1..], back);
      }
    }
  }

  /** The segments stand in the path exactly when there are such places. */
  lemma EmbedsPlain(segs: seq<string>, p: seq<string>)
    ensures Embeds(segs, p) <==> exists at :: StandsIn(segs, p, at)
  {
    if Embeds(segs, p) {
      var at := EmbedsAt(segs, p);
    }
    if at :| StandsIn(segs, p, at) {
      AtEmbeds(segs, p, at);
    }
  }
}
