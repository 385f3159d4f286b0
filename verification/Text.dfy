/** White space and trimming as JavaScript defines them. */
module Text {
  // ---- Characters ----

  /** The characters JavaScript's `\s` and `trim` treat as white space. */
  predicate IsSpace(c: char) {
    || c == ' ' || '\t' <= c <= '\r' || c == '\U{a0}' || c == '\U{1680}' || '\U{2000}' <= c <= '\U{200a}'
    || c == '\U{2028}' || c == '\U{2029}' || c == '\U{202f}' || c == '\U{205f}' || c == '\U{3000}' || c == '\U{feff}'
  }

  /** The characters a regular expression's `.` does not match. */
  predicate IsTerminator(c: char) {
    c == '\n' || c == '\r' || c == '\U{2028}' || c == '\U{2029}'
  }

  lemma PlainCharacters()
    ensures IsSpace(' ') && IsSpace('\t') && !IsSpace('#') && !IsSpace('-') && !IsSpace('[') && !IsSpace(']')
    ensures IsSpace('\n') && !IsTerminator(' ')
  {
  }

  function TrimStart(s: string): string {
    if s != "" && IsSpace(s[0]) then TrimStart(s[1..]) else s
  }

  function TrimEnd(s: string): string {
    if s != "" && IsSpace(s[|s| - 1]) then TrimEnd(s[..|s| - 1]) else s
  }

  function Trim(s: string): string {
    TrimEnd(TrimStart(s))
  }

  predicate IsBlank(line: string) {
    forall i :: 0 <= i < |line| ==> IsSpace(line[i])
  }

  predicate IsTrimmed(s: string) {
    s != "" ==> !IsSpace(s[0]) && !IsSpace(s[|s| - 1])
  }

  lemma {:induction false} TrimStartIs(pre: string, rest: string)
    requires IsBlank(pre) && (rest != "" ==> !IsSpace(rest[0]))
    ensures TrimStart(pre + rest) == rest
  {
    hide IsSpace;
    if pre == "" {
      assert pre + rest == rest;
    } else {
      assert (pre + rest)[1..] == pre[1..] + rest;
      assert (pre + rest)[0] == pre[0];
      TrimStartIs(pre[1..], rest);
    }
  }

  lemma {:induction false} TrimEndIs(rest: string, post: string)
    requires IsBlank(post) && (rest != "" ==> !IsSpace(rest[|rest| - 1]))
    ensures TrimEnd(rest + post) == rest
  {
    hide IsSpace;
    if post == "" {
      assert rest + post == rest;
    } else {
      var n := |post| - 1;
      assert (rest + post)[..|rest + post| - 1] == rest + post[..n];
      assert (rest + post)[|rest + post| - 1] == post[n];
      TrimEndIs(rest, post[..n]);
    }
  }

  lemma {:induction false} TrimStartParts(s: string) returns (pre: string)
    ensures s == pre + TrimStart(s) && IsBlank(pre) && (TrimStart(s) != "" ==> !IsSpace(TrimStart(s)[0]))
  {
    hide IsSpace;
    if s != "" && IsSpace(s[0]) {
      var inner := TrimStartParts(s[1..]);
      pre := [s[0]] + inner;
    } else {
      pre := "";
    }
  }

  lemma {:induction false} TrimEndParts(s: string) returns (post: string)
    ensures s == TrimEnd(s) + post && IsBlank(post) && (TrimEnd(s) != "" ==> !IsSpace(TrimEnd(s)[|TrimEnd(s)| - 1]))
  {
    hide IsSpace;
    if s != "" && IsSpace(s[|s| - 1]) {
      var inner := TrimEndParts(s[..|s| - 1]);
      post := inner + [s[|s| - 1]];
    } else {
      post := "";
    }
  }

  /** Trimming finds the only middle that has white space around it and none at its ends. */
  lemma TrimIs(pre: string, mid: string, post: string)
    requires IsBlank(pre) && IsBlank(post) && IsTrimmed(mid)
    ensures Trim(pre + mid + post) == mid
  {
    hide IsSpace, TrimStart, TrimEnd;
    if mid == "" {
      assert pre + mid + post == (pre + post) + "";
      TrimStartIs(pre + post, "");
      TrimEndIs(mid, "");
      assert mid + "" == mid;
    } else {
      assert pre + mid + post == pre + (mid + post);
      assert (mid + post)[0] == mid[0];
      TrimStartIs(pre, mid + post);
      TrimEndIs(mid, post);
    }
  }

  lemma TrimParts(s: string) returns (pre: string, post: string)
    ensures s == pre + Trim(s) + post && IsBlank(pre) && IsBlank(post) && IsTrimmed(Trim(s))
  {
    hide IsSpace, TrimStart, TrimEnd;
    pre := TrimStartParts(s);
    post := TrimEndParts(TrimStart(s));
    assert s == pre + (Trim(s) + post);
    assert Trim(s) != "" ==> Trim(s)[0] == TrimStart(s)[0];
  }

  lemma TrimEmpty(s: string)
    ensures Trim(s) == "" <==> IsBlank(s)
  {
    hide IsSpace, Trim;
    var pre, post := TrimParts(s);
    if IsBlank(s) {
      assert s == s + "" + "";
      TrimIs(s, "", "");
    }
  }
}
