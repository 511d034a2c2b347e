/** Strings as the server cleans them up. */
module Text {

  predicate IsSpace(c: char) {
    c == ' ' || '\t' <= c <= '\r' || '\U{1c}' <= c <= '\U{1f}'
  }

  /** str.strip, for ASCII whitespace. */
  function Strip(s: string): string
    decreases |s|
  {
    if s == [] then []
    else if IsSpace(s[0]) then Strip(s[1..])
    else if IsSpace(s[|s| - 1]) then Strip(s[..|s| - 1])
    else s
  }

  predicate Blank(s: string) {
    forall i :: 0 <= i < |s| ==> IsSpace(s[i])
  }

  /** Nothing to strip at either end. */
  predicate Trimmed(s: string) {
    s == [] || (!IsSpace(s[0]) && !IsSpace(s[|s| - 1]))
  }

  lemma {:induction false} BlankStripsToNothing(s: string)
    requires Blank(s)
    ensures Strip(s) == []
    decreases |s|
  {
    if s != [] {
      BlankStripsToNothing(s[1..]);
    }
  }

  /** Whatever white space surrounds a trimmed text, stripping leaves exactly that text. */
  lemma {:induction false} StripRemovesSurroundings(before: string, text: string, after: string)
    requires Blank(before) && Blank(after) && Trimmed(text)
    ensures Strip(before + text + after) == text
    decreases |before| + |after|
  {
    var s := before + text + after;
    if text == [] {
      BlankStripsToNothing(s);
    } else if before != [] {
      assert s[0] == before[0] && s[1..] == before[1..] + text + after;
      StripRemovesSurroundings(before[1..], text, after);
    } else if after != [] {
      assert s[0] == text[0] && s[|s| - 1] == after[|after| - 1];
      assert s[..|s| - 1] == before + text + after[..|after| - 1];
      StripRemovesSurroundings(before, text, after[..|after| - 1]);
    } else {
      assert s == text;
    }
  }

  /** Every text is its stripped form surrounded by white space. */
  lemma {:induction false} StripSplits(s: string) returns (before: string, after: string)
    ensures Blank(before) && Blank(after) && Trimmed(Strip(s))
    ensures s == before + Strip(s) + after
    decreases |s|
  {
    before, after := [], [];
    if s == [] {
    } else if IsSpace(s[0]) {
      before, after := StripSplits(s[1..]);
      assert s == [s[0]] + s[1..];
      before := [s[0]] + before;
    } else if IsSpace(s[|s| - 1]) {
      before, after := StripSplits(s[..|s| - 1]);
      assert s == s[..|s| - 1] + [s[|s| - 1]];
      after := after + [s[|s| - 1]];
    }
  }

  /** str.lower, for ASCII letters. */
  function Lower(s: string): string {
    seq(|s|, i requires 0 <= i < |s| => if 'A' <= s[i] <= 'Z' then s[i] + 32 as char else s[i])
  }
}
