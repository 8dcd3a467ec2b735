/** Strings as the source's trimming sees them. */
module Text {

  /** The characters that JavaScript's trim() removes: white space, line ends and the byte-order mark. */
  predicate IsSpace(c: char) {
    || '\t' <= c <= '\r'
    || c == ' ' || c == '\U{00A0}' || c == '\U{1680}'
    || '\U{2000}' <= c <= '\U{200A}'
    || c == '\U{2028}' || c == '\U{2029}' || c == '\U{202F}' || c == '\U{205F}' || c == '\U{3000}'
    || c == '\U{FEFF}'
  }

  ghost predicate AllSpace(s: string) {
    forall i :: 0 <= i < |s| ==> IsSpace(s[i])
  }

  function TrimStart(s: string): string {
    if s != "" && IsSpace(s[0]) then TrimStart(s[1..]) else s
  }

  function TrimEnd(s: string): string {
    if s != "" && IsSpace(s[|s| - 1]) then TrimEnd(s[..|s| - 1]) else s
  }

  function Trim(s: string): string {
    TrimEnd(TrimStart(s))
  }

  lemma {:induction false} TrimStartSplits(s: string) returns (before: string)
    ensures s == before + TrimStart(s) && AllSpace(before)
    ensures TrimStart(s) != "" ==> !IsSpace(TrimStart(s)[0])
  {
    if s != "" && IsSpace(s[0]) {
      var rest := TrimStartSplits(s[1..]);
      before := [s[0]] + rest;
    } else {
      before := "";
    }
  }

  lemma {:induction false} TrimEndSplits(s: string) returns (after: string)
    ensures s == TrimEnd(s) + after && AllSpace(after)
    ensures TrimEnd(s) != "" ==> !IsSpace(TrimEnd(s)[|TrimEnd(s)| - 1])
  {
    if s != "" && IsSpace(s[|s| - 1]) {
      var rest := TrimEndSplits(s[..|s| - 1]);
      after := rest + [s[|s| - 1]];
      assert s == s[..|s| - 1] + [s[|s| - 1]];
    } else {
      after := "";
    }
  }

  /** Trimming takes white space off both ends and nothing else, and leaves none there. */
  lemma TrimSplits(s: string) returns (before: string, after: string)
    ensures s == before + Trim(s) + after
    ensures AllSpace(before) && AllSpace(after)
    ensures Trim(s) != "" ==> !IsSpace(Trim(s)[0]) && !IsSpace(Trim(s)[|Trim(s)| - 1])
  {
    before := TrimStartSplits(s);
    after := TrimEndSplits(TrimStart(s));
  }

  lemma TrimEmpty(s: string)
    ensures Trim(s) == "" <==> AllSpace(s)
  {
    var before, after := TrimSplits(s);
    if Trim(s) != "" {
      assert s[|before|] == Trim(s)[0];
    }
  }

  lemma {:induction false} TrimEndPrepend(c: char, s: string)
    requires !IsSpace(c)
    ensures TrimEnd([c] + s) == [c] + TrimEnd(s)
  {
    if s != "" && IsSpace(s[|s| - 1]) {
      assert ([c] + s)[..|s|] == [c] + s[..|s| - 1];
      TrimEndPrepend(c, s[..|s| - 1]);
    }
  }

  /** A character that is not white space keeps the leading white space of what follows it. */
  lemma TrimPrepend(c: char, s: string)
    requires !IsSpace(c)
    ensures Trim([c] + s) == [c] + TrimEnd(s)
  {
    TrimEndPrepend(c, s);
  }

  /** White space and then a character that is not: that is where the trimmed text starts. */
  lemma TrimStartsAt(before: string, c: char, rest: string)
    requires AllSpace(before) && !IsSpace(c)
    ensures Trim(before + [c] + rest) != "" && Trim(before + [c] + rest)[0] == c
  {
    hide Trim;
    var s := before + [c] + rest;
    assert s[|before|] == c;
    TrimEmpty(s);
    var b, a := TrimSplits(s);
    assert s[|b|] == Trim(s)[0];
    assert forall i :: 0 <= i < |before| ==> s[i] == before[i];
    assert forall i :: 0 <= i < |b| ==> s[i] == b[i];
  }

  /** A text that goes on with a character that is not white space is not trimmed to the same. */
  lemma TrimLonger(a: string, c: char, rest: string)
    requires !IsSpace(c)
    ensures Trim(a) != Trim(a + [c] + rest)
  {
    hide Trim, AllSpace;
    var s := a + [c] + rest;
    if Trim(a) == "" {
      TrimEmpty(a);
      TrimStartsAt(a, c, rest);
    } else {
      var first, last := TrimSplits(a);
      assert a[|first|] == Trim(a)[0];
      var more := Trim(a)[1..] + last;
      assert a == first + [Trim(a)[0]] + more;
      LastKept(first, Trim(a)[0], more, c, rest);
      assert s == first + [Trim(a)[0]] + more + [c] + rest;
    }
  }

  /** From one character that is not white space to another nothing is trimmed. */
  lemma LastKept(before: string, x: char, middle: string, y: char, rest: string)
    requires AllSpace(before) && !IsSpace(x) && !IsSpace(y)
    ensures |Trim(before + [x] + middle + [y] + rest)| >= |middle| + 2
  {
    hide Trim;
    var s := before + [x] + middle + [y] + rest;
    var at := |before| + 1 + |middle|;
    assert s[|before|] == x && s[at] == y;
    var b, a := TrimSplits(s);
    assert forall i :: 0 <= i < |b| ==> s[i] == b[i];
    assert forall i :: |s| - |a| <= i < |s| ==> s[i] == a[i - (|s| - |a|)];
  }
}
