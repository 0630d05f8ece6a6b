/** anfra's block in a repo's AGENTS.md, found, replaced and added (internal/agents/agentsmd.go). */
module AgentsBlock {
  import opened Options

  const BEGIN := "<!-- anfra:begin -->"
  const END := "<!-- anfra:end -->"

  /** sub is in s, from its i-th character on. */
  predicate At(s: string, i: int, sub: string) {
    0 <= i && i + |sub| <= |s| && forall j | 0 <= j < |sub| :: sub[j] == s[i + j]
  }

  /** Where sub first is in s; -1 where it is not. */
  function Index(s: string, sub: string): (i: int)
    ensures i >= -1 && (i >= 0 ==> At(s, i, sub))
    ensures forall k | 0 <= k < (if i >= 0 then i else |s| + 1) :: !At(s, k, sub)
  {
    if At(s, 0, sub) then 0
    else if s == "" then -1
    else
      var i := Index(s[1..], sub);
      OnePast(s, sub);
      if i < 0 then -1 else i + 1
  }

  lemma OnePast(s: string, sub: string)
    requires s != ""
    ensures forall k | 1 <= k :: At(s, k, sub) <==> At(s[1..], k - 1, sub)
  {
    forall k | 1 <= k ensures At(s, k, sub) <==> At(s[1..], k - 1, sub) {
      Shifted([s[0]], s[1..], sub, k);
      assert [s[0]] + s[1..] == s;
    }
  }

  lemma IndexIs(s: string, sub: string, i: nat)
    requires At(s, i, sub) && forall k | 0 <= k < i :: !At(s, k, sub)
    ensures Index(s, sub) == i
  {
  }

  /** The first place of a text, taken by another. */
  function Replace(s: string, was: string, now: string): string {
    var i := Index(s, was);
    if i < 0 then s else s[..i] + now + s[i + |was|..]
  }

  /** The block this anfra writes: its markers around a text that holds neither, and a line end. */
  ghost predicate IsBlock(block: string) {
    && At(block, 0, BEGIN) && At(block, |block| - |END| - 1, END) && block[|block| - 1] == '\n'
    && (forall k | 0 < k :: !At(block, k, BEGIN))
    && (forall k | 0 <= k < |block| - |END| - 1 :: !At(block, k, END))
  }

  /** The end of the block that starts at begin, a line end after its marker included. */
  function EndOf(s: string, begin: nat, offset: nat): nat
    requires begin <= |s| && At(s[begin..], offset, END)
  {
    var end := begin + offset + |END|;
    if end < |s| && s[end] == '\n' then end + 1 else end
  }

  function CurrentBlock(s: string): Option<string> {
    var begin := Index(s, BEGIN);
    if begin < 0 then None
    else
      var offset := Index(s[begin..], END);
      if offset < 0 then None else Some(s[begin..EndOf(s, begin, offset)])
  }

  /** There is a block exactly where a begin marker is followed by an end marker. */
  lemma HasBlockIff(s: string)
    ensures CurrentBlock(s).Some? <==> exists i, k :: 0 <= i <= k && At(s, i, BEGIN) && At(s, k, END)
  {
    hide At;
    var begin := Index(s, BEGIN);
    if begin >= 0 {
      InText(s, begin);
      assert s == s[..begin] + s[begin..];
      var offset := Index(s[begin..], END);
      if offset >= 0 { Shifted(s[..begin], s[begin..], END, begin + offset); }
      forall i, k | 0 <= i <= k && At(s, i, BEGIN) && At(s, k, END) ensures offset >= 0 {
        assert i >= begin;
        Shifted(s[..begin], s[begin..], END, k);
        NowhereElse(s[begin..], END, k - begin) by { MarkersOnOneLine(); }
      }
    } else {
      forall i | 0 <= i ensures !At(s, i, BEGIN) { NowhereElse(s, BEGIN, i) by { MarkersOnOneLine(); } }
    }
  }

  /** What is put between a file's text and a block added to it. */
  function Gap(s: string): string {
    if s == "" || EndsWith(s, "\n\n") then "" else if EndsWith(s, "\n") then "\n" else "\n\n"
  }

  predicate EndsWith(s: string, end: string) {
    |end| <= |s| && s[|s| - |end|..] == end
  }

  /** A block is added after a blank line, or at the file's start; and no more is put between than that takes. */
  lemma AddedAfterABlankLine(s: string)
    ensures s + Gap(s) == "" || EndsWith(s + Gap(s), "\n\n")
    ensures s == "" ==> Gap(s) == ""
    ensures forall c | c in Gap(s) :: c == '\n'
    ensures Gap(s) != "" ==> !EndsWith(s + Gap(s)[..|Gap(s)| - 1], "\n\n")
  {
    if s != "" {
      if EndsWith(s, "\n\n") {
        assert s + Gap(s) == s;
      } else if EndsWith(s, "\n") {
        assert s[|s| - 1] == '\n' && s + Gap(s)[..0] == s;
      } else {
        assert (s + "\n")[|s| - 1..] == [s[|s| - 1]] + "\n" && s[|s| - 1..] == [s[|s| - 1]];
        assert Gap(s)[..1] == "\n";
      }
    }
  }

  function WithBlock(s: string, block: string): string {
    match CurrentBlock(s)
    case Some(current) => Replace(s, current, block)
    case None => s + Gap(s) + block
  }

  /** A begin marker is in the file, and its first is followed by no end marker. */
  predicate Unended(s: string) {
    Index(s, BEGIN) >= 0 && Index(s[Index(s, BEGIN)..], END) < 0
  }

  // Where a text is in two texts put together

  lemma Shifted(a: string, b: string, sub: string, k: int)
    requires k >= |a|
    ensures At(a + b, k, sub) <==> At(b, k - |a|, sub)
  {
    assert forall j | k <= j < |a + b| :: (a + b)[j] == b[j - |a|];
    if At(b, k - |a|, sub) {
      forall j | 0 <= j < |sub| ensures sub[j] == (a + b)[k + j] { assert sub[j] == b[k - |a| + j]; }
    }
    if At(a + b, k, sub) {
      forall j | 0 <= j < |sub| ensures sub[j] == b[k - |a| + j] { assert sub[j] == (a + b)[k + j]; }
    }
  }

  lemma Within(a: string, b: string, sub: string, k: int)
    requires k + |sub| <= |a|
    ensures At(a + b, k, sub) <==> At(a, k, sub)
  {
  }

  /** A marker, having no line end, does not lie across one. */
  lemma NotAcross(a: string, b: string, sub: string, k: nat)
    requires '\n' !in sub && sub != "" && a != "" && a[|a| - 1] == '\n' && k < |a|
    ensures At(a + b, k, sub) <==> At(a, k, sub)
  {
    if k + |sub| > |a| {
      var j := |a| - 1 - k;
      assert sub[j] in sub && (a + b)[k + j] == '\n';
    } else {
      Within(a, b, sub, k);
    }
  }

  lemma MarkersOnOneLine()
    ensures '\n' !in BEGIN && '\n' !in END && |BEGIN| == 20 && |END| == 18
    ensures BEGIN[11] != END[11] && BEGIN[1] != END[0]
  {
  }

  /** A file's text and the gap after it hold a marker only where the text does, and end a line. */
  lemma GapHoldsNone(s: string, block: string, sub: string, k: nat)
    requires sub == BEGIN || sub == END
    requires k < |s + Gap(s)|
    ensures At(s + Gap(s) + block, k, sub) <==> At(s, k, sub)
  {
    hide At;
    MarkersOnOneLine();
    var a := s + Gap(s);
    NotAcross(a, block, sub, k);
    InGap(s, Gap(s), sub, k);
  }

  lemma InGap(s: string, gap: string, sub: string, k: nat)
    requires sub != "" && '\n' !in sub && forall c | c in gap :: c == '\n'
    ensures At(s + gap, k, sub) <==> At(s, k, sub)
  {
    if |s| < k + |sub| <= |s + gap| {
      var j := |sub| - 1;
      assert sub[j] in sub && (s + gap)[k + j] == gap[k + j - |s|] && gap[k + j - |s|] in gap;
    } else if k + |sub| <= |s| {
      Within(s, gap, sub, k);
    }
  }

  // What WithBlock does

  /** In a file that has a block, the block goes and what is before and after it stays. */
  lemma ReplacesInPlace(s: string, block: string)
    requires CurrentBlock(s).Some?
    ensures Index(s, BEGIN) >= 0
    ensures var begin := Index(s, BEGIN); var current := CurrentBlock(s).value;
            && At(s, begin, current) && At(current, 0, BEGIN)
            && WithBlock(s, block) == s[..begin] + block + s[begin + |current|..]
  {
    hide At, Index;
    var begin := Index(s, BEGIN);
    InText(s, begin);
    var offset := Index(s[begin..], END);
    var end := EndOf(s, begin, offset);
    EndPastBegin(s, begin, offset);
    var current := s[begin..end];
    StartsWithBegin(s, begin, end);
    forall k | 0 <= k < begin ensures !At(s, k, current) { StartsTheSame(s, k, current); }
    IndexIs(s, current, begin);
  }

  lemma EndPastBegin(s: string, begin: nat, offset: nat)
    requires begin <= |s| && At(s, begin, BEGIN) && At(s[begin..], offset, END)
    ensures begin + |BEGIN| <= EndOf(s, begin, offset) <= |s|
  {
    MarkersOnOneLine();
    assert BEGIN[11] == s[begin + 11] == s[begin..][11];
    assert BEGIN[1] == s[begin + 1] == s[begin..][1];
    assert END[0] == s[begin..][offset + 0] && END[11] == s[begin..][offset + 11];
  }

  lemma StartsWithBegin(s: string, begin: nat, end: nat)
    requires begin + |BEGIN| <= end <= |s| && At(s, begin, BEGIN)
    ensures At(s, begin, s[begin..end]) && At(s[begin..end], 0, BEGIN)
  {
  }

  lemma StartsTheSame(s: string, k: nat, current: string)
    requires At(current, 0, BEGIN) && !At(s, k, BEGIN)
    ensures !At(s, k, current)
  {
    if k + |BEGIN| <= |s| {
      var j :| 0 <= j < |BEGIN| && BEGIN[j] != s[k + j];
      assert BEGIN[j] == current[0 + j];
    }
  }

  /** Where the first begin marker is the block's, the block found is the block. */
  lemma FindsBlock(a: string, block: string, z: string)
    requires IsBlock(block) && forall k | 0 <= k < |a| :: !At(a + (block + z), k, BEGIN)
    ensures Index(a + (block + z), BEGIN) == |a| && CurrentBlock(a + (block + z)) == Some(block)
  {
    hide At, Index;
    var s, rest, end := a + (block + z), block + z, |block| - |END| - 1;
    assert end >= 0 by { LongEnough(block); }
    Shifted(a, rest, BEGIN, |a|);
    Within(block, z, BEGIN, 0) by { LongEnough(block); }
    IndexIs(s, BEGIN, |a|);
    assert s[|a|..] == rest;
    Within(block, z, END, end);
    forall k | 0 <= k < end ensures !At(rest, k, END) { Within(block, z, END, k); }
    IndexIs(rest, END, end);
    assert s[|a| + |block| - 1] == block[|block| - 1];
    assert s[|a|..|a| + |block|] == block;
  }

  lemma LongEnough(block: string)
    requires IsBlock(block)
    ensures |block| >= |END| + 1 && |block| >= |BEGIN|
  {
  }

  /** A begin marker before a place where one starts does not depend on what comes after. */
  lemma SameBefore(a: string, now: string, was: string, k: nat)
    requires At(now, 0, BEGIN) && At(was, 0, BEGIN) && k < |a| && !At(a + was, k, BEGIN)
    ensures !At(a + now, k, BEGIN)
  {
    assert |now| >= |BEGIN| && |was| >= |BEGIN|;
    var j :| 0 <= j < |BEGIN| && BEGIN[j] != (a + was)[k + j];
    if k + j >= |a| {
      var i := k + j - |a|;
      assert was[0 + i] == BEGIN[i] == now[0 + i];
    }
  }

  /** Unless the first begin marker is unended, the file then holds this block. */
  lemma WithBlockIsCurrent(s: string, block: string)
    requires IsBlock(block) && !Unended(s)
    ensures CurrentBlock(WithBlock(s, block)) == Some(block)
  {
    hide At, Index, Gap, IsBlock, Replace;
    if CurrentBlock(s).Some? {
      ReplacesInPlace(s, block);
      var begin, current := Index(s, BEGIN), CurrentBlock(s).value;
      InPlace(s, begin, current);
      var a, z := s[..begin], s[begin + |current|..];
      StillFirst(a, block, current, z);
      FindsBlock(a, block, z);
      assert a + (block + z) == a + block + z;
    } else {
      var a := s + Gap(s);
      StillNone(s, block);
      FindsBlock(a, block, "");
      assert a + (block + "") == a + block;
    }
  }

  lemma StillFirst(a: string, block: string, current: string, z: string)
    requires IsBlock(block) && At(current, 0, BEGIN) && Index(a + (current + z), BEGIN) == |a|
    ensures forall k | 0 <= k < |a| :: !At(a + (block + z), k, BEGIN)
  {
    hide At, Index;
    BeginsWith(current, z);
    BeginsWith(block, z);
    forall k | 0 <= k < |a| ensures !At(a + (block + z), k, BEGIN) { SameBefore(a, block + z, current + z, k); }
  }

  lemma StillNone(s: string, block: string)
    requires Index(s, BEGIN) < 0
    ensures forall k | 0 <= k < |s + Gap(s)| :: !At(s + Gap(s) + (block + ""), k, BEGIN)
  {
    hide At, Index, Gap;
    assert block + "" == block;
    forall k | 0 <= k < |s + Gap(s)| ensures !At(s + Gap(s) + (block + ""), k, BEGIN) {
      GapHoldsNone(s, block, BEGIN, k);
      NowhereElse(s, BEGIN, k);
    }
  }

  lemma InPlace(s: string, begin: nat, current: string)
    requires At(s, begin, current)
    ensures begin + |current| <= |s| && s == s[..begin] + (current + s[begin + |current|..])
  {
  }

  lemma BeginsWith(a: string, z: string)
    requires At(a, 0, BEGIN)
    ensures At(a + z, 0, BEGIN)
  {
  }

  lemma NowhereElse(s: string, sub: string, k: nat)
    requires sub != ""
    ensures Index(s, sub) < 0 ==> !At(s, k, sub)
  {
  }

  /** Where the first begin marker is unended, the block is added; and the next time, all from that
      marker on is taken for the block, and lost. */
  lemma UnendedLosesItsRest(s: string, block: string)
    requires IsBlock(block) && Unended(s)
    ensures WithBlock(s, block) == s + Gap(s) + block
    ensures CurrentBlock(WithBlock(s, block)) == Some(WithBlock(s, block)[Index(s, BEGIN)..])
    ensures WithBlock(WithBlock(s, block), block) == s[..Index(s, BEGIN)] + block
  {
    hide At, Index, Gap;
    var a, begin := s + Gap(s), Index(s, BEGIN);
    var t := a + block;
    assert begin < |s| by { InText(s, begin); }
    forall k | 0 <= k <= begin ensures At(t, k, BEGIN) <==> At(s, k, BEGIN) { GapHoldsNone(s, block, BEGIN, k); }
    IndexIs(t, BEGIN, begin);
    LongEnough(block);
    UnendedEnd(s, block, begin);
    assert t[|t| - 1] == block[|block| - 1];
    assert EndOf(t, begin, Index(t[begin..], END)) == |t|;
    assert t[begin..|t|] == t[begin..];
    ReplacesInPlace(t, block);
    assert t[begin + |t[begin..]|..] == "" && t[..begin] == s[..begin];
  }

  lemma InText(s: string, begin: nat)
    requires At(s, begin, BEGIN)
    ensures begin + |BEGIN| <= |s|
  {
  }

  lemma UnendedEnd(s: string, block: string, begin: nat)
    requires IsBlock(block) && begin <= |s| && Index(s[begin..], END) < 0
    ensures Index((s + Gap(s) + block)[begin..], END) == |s + Gap(s)| - begin + |block| - |END| - 1
  {
    hide At, Index, Gap;
    var a := s + Gap(s);
    var t, end := a + block, |a| - begin + |block| - |END| - 1;
    LongEnough(block);
    forall k | 0 <= k <= end ensures At(t[begin..], k, END) <==> k == end {
      assert t == t[..begin] + t[begin..] && s == s[..begin] + s[begin..];
      Shifted(t[..begin], t[begin..], END, begin + k);
      Shifted(s[..begin], s[begin..], END, begin + k);
      if begin + k < |a| {
        GapHoldsNone(s, block, END, begin + k);
        NowhereElse(s[begin..], END, k);
      } else {
        Shifted(a, block, END, begin + k);
      }
    }
    IndexIs(t[begin..], END, end);
  }

  /** Doing it twice is doing it once if and only if the file's first begin marker, if any, is followed
      by an end marker; and so it is with the block found then being this one. */
  lemma IdempotentUnlessUnended(s: string, block: string)
    requires IsBlock(block)
    ensures WithBlock(WithBlock(s, block), block) == WithBlock(s, block) <==> !Unended(s)
    ensures CurrentBlock(WithBlock(s, block)) == Some(block) <==> !Unended(s)
  {
    hide *;
    if Unended(s) { UnendedTwice(s, block); } else { EndedTwice(s, block); }
  }

  lemma UnendedTwice(s: string, block: string)
    requires IsBlock(block) && Unended(s)
    ensures WithBlock(WithBlock(s, block), block) != WithBlock(s, block)
    ensures CurrentBlock(WithBlock(s, block)) != Some(block)
  {
    hide At, Index, Gap, IsBlock, CurrentBlock, WithBlock;
    UnendedLosesItsRest(s, block);
    var begin := Index(s, BEGIN);
    InText(s, begin);
    assert |s[..begin] + block| < |s + Gap(s) + block| && |(s + Gap(s) + block)[begin..]| > |block|;
  }

  lemma EndedTwice(s: string, block: string)
    requires IsBlock(block) && !Unended(s)
    ensures WithBlock(WithBlock(s, block), block) == WithBlock(s, block)
    ensures CurrentBlock(WithBlock(s, block)) == Some(block)
  {
    hide *;
    var t := WithBlock(s, block);
    WithBlockIsCurrent(s, block);
    ReplacesInPlace(t, block);
    InPlace(t, Index(t, BEGIN), block);
    Regroup(t, Index(t, BEGIN), block);
  }

  lemma Regroup(t: string, begin: nat, block: string)
    requires begin + |block| <= |t|
    ensures t[..begin] + (block + t[begin + |block|..]) == t[..begin] + block + t[begin + |block|..]
  {
  }

  /** The block found is this one exactly when there is nothing to write. */
  lemma CurrentIffNothingToWrite(s: string, block: string)
    requires IsBlock(block)
    ensures CurrentBlock(s) == Some(block) <==> WithBlock(s, block) == s
  {
    hide At, Index, Gap, IsBlock, Replace;
    assert |block| > 0 by { LongEnough(block); }
    match CurrentBlock(s)
    case None =>
      assert |WithBlock(s, block)| >= |s| + |block|;
    case Some(current) =>
      ReplacesInPlace(s, block);
      InPlace(s, Index(s, BEGIN), current);
      SameMiddle(s[..Index(s, BEGIN)], s[Index(s, BEGIN) + |current|..], current, block);
  }

  lemma SameMiddle(a: string, z: string, now: string, other: string)
    ensures a + (now + z) == a + other + z <==> now == other
  {
    assert a + other + z == a + (other + z);
    if a + (now + z) == a + (other + z) {
      assert |now| == |other|;
      assert now == (a + (now + z))[|a|..|a| + |now|] == (a + (other + z))[|a|..|a| + |now|] == other;
    }
  }

  /** Apart from the block it replaces, a file's text stays; it is followed by two line ends at most and
      the block where it had none. */
  lemma TextOutsideKept(s: string, block: string)
    ensures match CurrentBlock(s)
            case Some(current) =>
              exists a, z :: s == a + current + z && WithBlock(s, block) == a + block + z
            case None => exists gap :: gap in {"", "\n", "\n\n"} && WithBlock(s, block) == s + gap + block
  {
    hide At, Index, Replace;
    if CurrentBlock(s).Some? {
      var begin, current := Index(s, BEGIN), CurrentBlock(s).value;
      ReplacesInPlace(s, block);
      InPlace(s, begin, current);
      var a, z := s[..begin], s[begin + |current|..];
      assert s == a + current + z;
    } else {
      assert WithBlock(s, block) == s + Gap(s) + block;
    }
  }
}
