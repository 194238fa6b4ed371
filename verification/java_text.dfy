/** The few pieces of java.lang that the chat server's command logic leans on:
    null references, String.trim, String.toLowerCase and String.equalsIgnoreCase.
    Case mapping is modelled for ASCII letters only. */
module JavaText {

  /** A Java reference that may be null. */
  datatype Option<T> = None | Some(value: T)

  /** String.trim drops every leading and trailing character whose code is at most U+0020. */
  predicate IsTrimmed(c: char)
  {
    c <= ' '
  }

  /** A word as a whitespace split yields it when it carries no control character either. */
  predicate IsPlainWord(s: string)
  {
    forall i :: 0 <= i < |s| ==> !IsTrimmed(s[i])
  }

  /** r occurs in s at index i, and every character of s before or after it is trimmed. */
  predicate OnlyTrimmedAround(s: string, i: int, r: string)
  {
    && 0 <= i <= |s| - |r| && r == s[i..i + |r|]
    && (forall j :: 0 <= j < i ==> IsTrimmed(s[j]))
    && (forall j :: i + |r| <= j < |s| ==> IsTrimmed(s[j]))
  }

  function TrimStart(s: string): (r: string)
    ensures |r| <= |s| && r == s[|s| - |r|..]
    ensures r == [] || !IsTrimmed(r[0])
    ensures forall i :: 0 <= i < |s| - |r| ==> IsTrimmed(s[i])
  {
    if s != [] && IsTrimmed(s[0]) then TrimStart(s[1..]) else s
  }

  function TrimEnd(s: string): (r: string)
    ensures |r| <= |s| && r == s[..|r|]
    ensures r == [] || !IsTrimmed(r[|r| - 1])
    ensures forall i :: |r| <= i < |s| ==> IsTrimmed(s[i])
  {
    if s != [] && IsTrimmed(s[|s| - 1]) then TrimEnd(s[..|s| - 1]) else s
  }

  /** String.trim: s without its leading and its trailing run of trimmed characters, that is the
      infix of s that neither starts nor ends with one and outside which every character is one. */
  function Trim(s: string): (r: string)
    ensures r == [] || (!IsTrimmed(r[0]) && !IsTrimmed(r[|r| - 1]))
    ensures exists i :: OnlyTrimmedAround(s, i, r)
    ensures IsPlainWord(s) ==> r == s
  {
    var t := TrimStart(s);
    var r := TrimEnd(t);
    TrimmedAround(s, |s| - |t|, t, r);
    TrimPlainWord(s, t);
    r
  }

  /** Dropping a run of trimmed characters from the start of s, giving t, and then one from the
      end of t, giving r, leaves an infix of s with only trimmed characters around it. */
  lemma TrimmedAround(s: string, i: nat, t: string, r: string)
    requires i <= |s| && t == s[i..] && forall j :: 0 <= j < i ==> IsTrimmed(s[j])
    requires |r| <= |t| && r == t[..|r|] && forall j :: |r| <= j < |t| ==> IsTrimmed(t[j])
    ensures OnlyTrimmedAround(s, i, r)
  {
    assert r <= s[i..];
    forall j | i + |r| <= j < |s|
      ensures IsTrimmed(s[j])
    {
      assert s[j] == t[j - i];
    }
  }

  /** A plain word has nothing to drop at either end. */
  lemma TrimPlainWord(s: string, t: string)
    requires t == TrimStart(s)
    ensures IsPlainWord(s) ==> TrimEnd(t) == s
  {
    if IsPlainWord(s) {
      assert t == s;
    }
  }

  /** Character.toLowerCase restricted to ASCII. */
  function LowerChar(c: char): char
  {
    if 'A' <= c <= 'Z' then (c as int + 32) as char else c
  }

  /** String.toLowerCase: same length, every letter lowered, no upper-case ASCII letter left. */
  function ToLowerCase(s: string): (r: string)
    ensures |r| == |s|
    ensures forall i :: 0 <= i < |s| ==> r[i] == LowerChar(s[i])
    ensures forall i :: 0 <= i < |r| ==> !('A' <= r[i] <= 'Z')
  {
    if s == [] then [] else [LowerChar(s[0])] + ToLowerCase(s[1..])
  }

  /** String.equalsIgnoreCase on a non-null argument: same length and equal letters after case
      folding. Ignoring case is comparing the lower-cased forms, hence it is an equivalence. */
  function EqualsIgnoreCase(a: string, b: string): (r: bool)
    ensures r <==> ToLowerCase(a) == ToLowerCase(b)
  {
    |a| == |b| && forall i :: 0 <= i < |a| ==> LowerChar(a[i]) == LowerChar(b[i])
  }
}
