/** Lines of modules as runs of one color. */
module LineRuns {
  import opened Bits

  type Line = seq<bool>

  // ----- Runs of one color -----

  /** The lengths of the runs of a line, white and black in turn; the first, white one may be empty. */
  function Runs(s: Line): (r: seq<nat>)
    ensures |r| > 0
  {
    if |s| == 0 then [0] else Extended(Runs(s[..|s| - 1]), s[|s| - 1])
  }

  /** The runs when one more module follows. */
  function Extended(r: seq<nat>, black: bool): (r': seq<nat>)
    requires |r| > 0
    ensures |r'| > 0
  {
    var n := |r| - 1;
    if black == (n % 2 == 1) then r[n := r[n] + 1] else r + [1]
  }

  // ----- Facts about runs -----

  lemma RunsEmpty()
    ensures Runs([]) == [0]
  {
  }

  lemma RunsAppend(s: Line, c: bool)
    ensures Runs(s + [c]) == Extended(Runs(s), c)
  {
    assert (s + [c])[..|s|] == s;
  }

  lemma {:induction false} RunsOfWhite(n: nat)
    ensures Runs(ZeroBits(n)) == [n]
  {
    hide Runs;
    if n == 0 {
      RunsEmpty();
      assert ZeroBits(0) == [];
    } else {
      RunsOfWhite(n - 1);
      assert ZeroBits(n) == ZeroBits(n - 1) + [false];
      RunsAppend(ZeroBits(n - 1), false);
    }
  }

  /** White modules at the end make the last run longer, or a new one. */
  lemma {:induction false} RunsThenWhite(s: Line, n: nat)
    requires n > 0
    ensures var r := Runs(s); var k := |r| - 1;
            Runs(s + ZeroBits(n)) == if k % 2 == 0 then r[k := r[k] + n] else r + [n]
  {
    hide Runs;
    assert ZeroBits(n) == ZeroBits(n - 1) + [false];
    assert s + ZeroBits(n) == (s + ZeroBits(n - 1)) + [false];
    RunsAppend(s + ZeroBits(n - 1), false);
    if n == 1 {
      assert s + ZeroBits(0) == s;
    } else {
      RunsThenWhite(s, n - 1);
    }
  }

  /** A white border in front only makes the first run longer. */
  lemma {:induction false} RunsAfterWhite(n: nat, s: Line)
    ensures Runs(ZeroBits(n) + s) == Runs(s)[0 := Runs(s)[0] + n]
    decreases |s|
  {
    hide Runs;
    if |s| == 0 {
      RunsOfWhite(n);
      RunsEmpty();
      assert s == [];
      assert ZeroBits(n) + s == ZeroBits(n);
    } else {
      var init, c := s[..|s| - 1], s[|s| - 1];
      RunsAfterWhite(n, init);
      assert ZeroBits(n) + s == (ZeroBits(n) + init) + [c] && s == init + [c];
      RunsAppend(ZeroBits(n) + init, c);
      RunsAppend(init, c);
    }
  }

  /** Every run after the first holds at least one module, and all modules are in runs. */
  lemma {:induction false} RunsPositive(s: Line)
    ensures forall i :: 0 < i < |Runs(s)| ==> Runs(s)[i] > 0
    ensures forall i :: 0 <= i < |Runs(s)| ==> Runs(s)[i] <= |s|
    decreases |s|
  {
    if |s| > 0 {
      RunsPositive(s[..|s| - 1]);
    }
  }

  // ----- Where the runs are -----

  /** The position at which run i starts. */
  function Start(r: seq<nat>, i: nat): nat
    requires i <= |r|
  {
    if i == 0 then 0 else Start(r, i - 1) + r[i - 1]
  }

  lemma StartStep(r: seq<nat>, i: nat)
    requires i < |r|
    ensures Start(r, i + 1) == Start(r, i) + r[i]
  {
  }

  lemma {:induction false} StartPrefix(r: seq<nat>, s: seq<nat>, i: nat)
    requires i <= |r| && i <= |s| && forall k :: 0 <= k < i ==> r[k] == s[k]
    ensures Start(r, i) == Start(s, i)
  {
    if i > 0 {
      StartPrefix(r, s, i - 1);
    }
  }

  lemma {:induction false} StartMonotone(r: seq<nat>, i: nat, k: nat)
    requires i <= k <= |r|
    ensures Start(r, i) <= Start(r, k)
    ensures i < k ==> Start(r, i) + r[i] <= Start(r, k)
    decreases k
  {
    if i < k {
      StartMonotone(r, i, k - 1);
    }
  }

  /** All modules are in runs. */
  lemma {:induction false} RunsTotal(s: Line)
    ensures Start(Runs(s), |Runs(s)|) == |s|
    decreases |s|
  {
    if |s| > 0 {
      var init := s[..|s| - 1];
      var r, n := Runs(init), |Runs(init)| - 1;
      RunsTotal(init);
      StartPrefix(r, Runs(s), n);
      StartPrefix(r, Runs(s), if |Runs(s)| > n + 1 then n + 1 else n);
    }
  }

  lemma RunInside(s: Line, i: nat)
    requires i < |Runs(s)|
    ensures Start(Runs(s), i) + Runs(s)[i] <= |s|
  {
    hide Runs;
    RunsTotal(s);
    StartMonotone(Runs(s), i, |Runs(s)|);
  }

  lemma RunsLast(s: Line)
    requires |s| > 0
    ensures Runs(s) == Extended(Runs(s[..|s| - 1]), s[|s| - 1])
  {
  }

  /** Even runs are white and odd ones black. */
  lemma {:induction false} RunColor(s: Line, i: nat, x: nat)
    requires i < |Runs(s)| && Start(Runs(s), i) <= x < Start(Runs(s), i) + Runs(s)[i]
    ensures x < |s| && s[x] == (i % 2 == 1)
    decreases |s|
  {
    hide Runs, Start;
    RunInside(s, i);
    var init := s[..|s| - 1];
    var r, n := Runs(init), |Runs(init)| - 1;
    RunsLast(s);
    RunsTotal(init);
    if i <= n {
      StartPrefix(r, Runs(s), i);
      if x < Start(r, i) + r[i] {
        RunColor(init, i, x);
      } else {
        StartStep(r, n);
      }
    } else {
      StartPrefix(r, Runs(s), n + 1);
    }
  }

  /** Every module is in some run. */
  lemma {:induction false} FindRun(r: seq<nat>, n: nat, x: nat) returns (i: nat)
    requires n <= |r| && x < Start(r, n)
    ensures i < n && Start(r, i) <= x < Start(r, i) + r[i]
  {
    if x < Start(r, n - 1) {
      i := FindRun(r, n - 1, x);
    } else {
      i := n - 1;
    }
  }

  /** Behind a run that does not end the line there is a run of the other color. */
  lemma NextRun(s: Line, i: nat)
    requires i < |Runs(s)| && Start(Runs(s), i) + Runs(s)[i] < |s|
    ensures i + 1 < |Runs(s)| && Start(Runs(s), i + 1) == Start(Runs(s), i) + Runs(s)[i]
    ensures s[Start(Runs(s), i + 1)] != (i % 2 == 1)
  {
    hide Runs;
    RunsTotal(s);
    RunsPositive(s);
    RunColor(s, i + 1, Start(Runs(s), i) + Runs(s)[i]);
  }

  /** A stretch of one color from the start of a run, ended by the other color, is the run. */
  lemma RunExact(s: Line, i: nat, b: nat)
    requires i < |Runs(s)| && Start(Runs(s), i) < b < |s|
    requires forall x :: Start(Runs(s), i) <= x < b ==> s[x] == (i % 2 == 1)
    requires s[b] != (i % 2 == 1)
    ensures i + 1 < |Runs(s)| && Start(Runs(s), i + 1) == b
  {
    hide Runs, Start;
    if Start(Runs(s), i) + Runs(s)[i] > b {
      RunColor(s, i, b);
    } else {
      NextRun(s, i);
    }
  }

  /** A run is at least as long as any stretch of its color from its start. */
  lemma RunAtLeast(s: Line, i: nat, b: nat)
    requires i < |Runs(s)| && Start(Runs(s), i) <= b <= |s|
    requires forall x :: Start(Runs(s), i) <= x < b ==> s[x] == (i % 2 == 1)
    ensures Runs(s)[i] >= b - Start(Runs(s), i)
  {
    hide Runs, Start;
    if Start(Runs(s), i) + Runs(s)[i] < b {
      NextRun(s, i);
    }
  }

  /** The run before a run is at least as long as any stretch of its color up to there. */
  lemma RunBefore(s: Line, i: nat, a: nat)
    requires 0 < i < |Runs(s)| && a <= Start(Runs(s), i)
    requires forall x :: a <= x < Start(Runs(s), i) && x < |s| ==> s[x] != (i % 2 == 1)
    ensures Runs(s)[i - 1] >= Start(Runs(s), i) - a
  {
    hide Runs;
    var r := Runs(s);
    var start := Start(r, i - 1);
    if start > a {
      assert i > 1;
      RunsPositive(s);
      RunColor(s, i - 2, start - 1);
    }
  }

  // ----- Lines that runs spell -----

  function Block(black: bool, n: nat): (s: Line)
    ensures |s| == n && forall i :: 0 <= i < n ==> s[i] == black
  {
    seq(n, i => black)
  }

  /** The line with the given runs, white and black in turn. */
  function Spell(r: seq<nat>): Line {
    if |r| == 0 then [] else Spell(r[..|r| - 1]) + Block(|r| % 2 == 0, r[|r| - 1])
  }

  lemma {:induction false} RunsThenBlock(s: Line, black: bool, n: nat)
    ensures var r := Runs(s); var k := |r| - 1;
            Runs(s + Block(black, n)) == if n == 0 then r else if black == (k % 2 == 1) then r[k := r[k] + n] else r + [n]
  {
    hide Runs;
    if n == 0 {
      assert s + Block(black, n) == s;
    } else {
      RunsThenBlock(s, black, n - 1);
      assert s + Block(black, n) == (s + Block(black, n - 1)) + [black];
      RunsAppend(s + Block(black, n - 1), black);
    }
  }

  /** Runs that are not empty are the runs of the line that they spell. */
  lemma {:induction false} RunsOfSpell(r: seq<nat>)
    requires |r| > 0 && forall i :: 0 < i < |r| ==> r[i] > 0
    ensures Runs(Spell(r)) == r
    decreases |r|
  {
    hide Runs;
    var n := |r| - 1;
    RunsThenBlock(Spell(r[..n]), |r| % 2 == 0, r[n]);
    if n == 0 {
      RunsEmpty();
      assert Spell(r[..0]) == [];
    } else {
      RunsOfSpell(r[..n]);
      assert r[..n] + [r[n]] == r;
    }
  }

  /** An empty run leaves its neighbors one color, so there are fewer runs. */
  lemma {:induction false} FewerRuns(r: seq<nat>)
    requires |r| > 0
    ensures |Runs(Spell(r))| <= |r|
    ensures (exists i :: 0 < i < |r| && r[i] == 0) ==> |Runs(Spell(r))| < |r|
    decreases |r|
  {
    hide Runs;
    var n := |r| - 1;
    RunsThenBlock(Spell(r[..n]), |r| % 2 == 0, r[n]);
    if n == 0 {
      RunsEmpty();
      assert Spell(r[..0]) == [];
    } else {
      FewerRuns(r[..n]);
      if r[n] > 0 && exists i :: 0 < i < |r| && r[i] == 0 {
        var i :| 0 < i < |r| && r[i] == 0;
        assert r[..n][i] == 0;
      }
    }
  }
}
