/** `get_filename_from_prompt`: a prompt made safe to use as a file name by
    deleting backslash, slash, asterisk, question mark, colon, double
    quote, angle brackets and vertical bar, and then turning each
    space into an underscore. */
module Filenames {

  /** The characters the regular-expression class deletes. */
  predicate Forbidden(c: char) {
    c == '\\' || c == '/' || c == '*' || c == '?' || c == ':' || c == '"' || c == '<' || c == '>' || c == '|'
  }

  /** Every character of s is allowed in a file name and s has no spaces. */
  predicate SafeName(s: string) {
    forall i :: 0 <= i < |s| ==> !Forbidden(s[i]) && s[i] != ' '
  }

  /** The `re.sub` call: s with every forbidden character removed. */
  function StripForbidden(s: string): (r: string)
    ensures |r| <= |s|
    ensures forall i :: 0 <= i < |r| ==> !Forbidden(r[i])
    ensures forall c :: !Forbidden(c) ==> (c in r <==> c in s)
    ensures forall c :: c in r ==> c in s
  {
    if s == [] then []
    else (if Forbidden(s[0]) then [] else [s[0]]) + StripForbidden(s[1..])
  }

  /** `s.replace(" ", "_")`: s with every space turned into an underscore. */
  function SpacesToUnderscores(s: string): (r: string)
    ensures |r| == |s|
    ensures forall i :: 0 <= i < |s| ==> r[i] == (if s[i] == ' ' then '_' else s[i])
  {
    if s == [] then []
    else [if s[0] == ' ' then '_' else s[0]] + SpacesToUnderscores(s[1..])
  }

  /** `get_filename_from_prompt(prompt)`. */
  function FilenameFromPrompt(prompt: string): (r: string)
    ensures SafeName(r)
    ensures |r| <= |prompt|
    ensures forall c :: !Forbidden(c) && c != ' ' && c != '_' ==> (c in r <==> c in prompt)
  {
    var stripped := StripForbidden(prompt);
    var r := SpacesToUnderscores(stripped);
    assert forall c :: c in r && c != '_' ==> c in stripped by {
      forall c | c in r && c != '_'
        ensures c in stripped
      {
        var i :| 0 <= i < |r| && r[i] == c;
        assert stripped[i] == c;
      }
    }
    assert forall c :: c in stripped && c != ' ' ==> c in r by {
      forall c | c in stripped && c != ' '
        ensures c in r
      {
        var i :| 0 <= i < |stripped| && stripped[i] == c;
        assert r[i] == c;
      }
    }
    r
  }

  /** Removal works piecewise: stripping a concatenation strips each part. */
  lemma {:induction false} StripForbiddenAppend(a: string, b: string)
    ensures StripForbidden(a + b) == StripForbidden(a) + StripForbidden(b)
    decreases |a|
  {
    if a != [] {
      assert (a + b)[1..] == a[1..] + b;
      StripForbiddenAppend(a[1..], b);
    } else {
      assert a + b == b;
    }
  }

  lemma {:induction false} SpacesToUnderscoresAppend(a: string, b: string)
    ensures SpacesToUnderscores(a + b) == SpacesToUnderscores(a) + SpacesToUnderscores(b)
    decreases |a|
  {
    if a != [] {
      assert (a + b)[1..] == a[1..] + b;
      SpacesToUnderscoresAppend(a[1..], b);
    } else {
      assert a + b == b;
    }
  }

  /** The conversion works character by character and keeps the order: the
      name of a concatenation is the concatenation of the names. */
  lemma FilenameAppend(a: string, b: string)
    ensures FilenameFromPrompt(a + b) == FilenameFromPrompt(a) + FilenameFromPrompt(b)
  {
    StripForbiddenAppend(a, b);
    SpacesToUnderscoresAppend(StripForbidden(a), StripForbidden(b));
  }

  /** A single character: a forbidden one is dropped, a space becomes an
      underscore and any other character is kept. Together with
      FilenameAppend this determines the name of every prompt. */
  lemma FilenameOfChar(c: char)
    ensures FilenameFromPrompt([c]) == if Forbidden(c) then [] else [if c == ' ' then '_' else c]
  {
    assert [c][1..] == [];
  }

  /** A name that is already safe comes back unchanged. */
  lemma SafeNameUnchanged(s: string)
    requires SafeName(s)
    ensures FilenameFromPrompt(s) == s
  {
    SafeKeptByStrip(s);
    var r := SpacesToUnderscores(s);
    assert r == s;
  }

  lemma {:induction false} SafeKeptByStrip(s: string)
    requires forall i :: 0 <= i < |s| ==> !Forbidden(s[i])
    ensures StripForbidden(s) == s
    decreases |s|
  {
    if s != [] {
      assert !Forbidden(s[0]);
      SafeKeptByStrip(s[1..]);
      assert s == [s[0]] + s[1..];
    }
  }

  /** The conversion is idempotent. */
  lemma FilenameIdempotent(prompt: string)
    ensures FilenameFromPrompt(FilenameFromPrompt(prompt)) == FilenameFromPrompt(prompt)
  {
    SafeNameUnchanged(FilenameFromPrompt(prompt));
  }

  /** Example: a prompt with a space and a question mark. */
  lemma PromptExample()
    ensures FilenameFromPrompt("a cat?") == "a_cat"
  {
    ExampleStrip();
    ExampleUnderscores();
  }

  lemma ExampleStrip()
    ensures StripForbidden("a cat?") == "a cat"
  {
    assert "a cat?" == "a cat" + "?";
    StripForbiddenAppend("a cat", "?");
    ExampleHasNoForbidden();
    SafeKeptByStrip("a cat");
    assert StripForbidden("?") == "" by {
      assert "?"[1..] == "";
    }
  }

  lemma ExampleHasNoForbidden()
    ensures forall i :: 0 <= i < |"a cat"| ==> !Forbidden("a cat"[i])
  {
    assert "a cat" == ['a', ' ', 'c', 'a', 't'];
  }

  lemma ExampleUnderscores()
    ensures SpacesToUnderscores("a cat") == "a_cat"
  {
    var s := "a cat";
    assert s[1..][1..][1..][1..][1..] == [];
  }
}
