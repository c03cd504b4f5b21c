/** String helpers standing in for Python's `str.strip`, `str.lower`, `str.split` and for
    `tools.validatedPythonName`. Strings are sequences of characters, one per byte. */
module Text {
  import opened Wrappers

  /** The characters `str.strip()` removes. */
  predicate IsBlank(c: char) {
    c == ' ' || c == '\t' || c == '\n' || c == '\r' || c == '\U{0B}' || c == '\U{0C}'
  }

  predicate AllBlank(s: string) {
    forall i :: 0 <= i < |s| ==> IsBlank(s[i])
  }

  /** `s.strip()`: `s` with the blanks at both ends removed. */
  function Strip(s: string): (r: string)
    ensures |r| <= |s|
    ensures r == [] || (!IsBlank(r[0]) && !IsBlank(r[|r| - 1]))
    decreases |s|
  {
    if s == [] then []
    else if IsBlank(s[0]) then Strip(s[1..])
    else if IsBlank(s[|s| - 1]) then Strip(s[..|s| - 1])
    else s
  }

  /** A string is blank after stripping exactly when it consists of blanks only. */
  lemma {:induction false} StripEmptyIffAllBlank(s: string)
    ensures Strip(s) == [] <==> AllBlank(s)
    decreases |s|
  {
    if s != [] {
      if IsBlank(s[0]) {
        StripEmptyIffAllBlank(s[1..]);
        assert forall i :: 1 <= i < |s| ==> s[i] == s[1..][i - 1];
      } else if IsBlank(s[|s| - 1]) {
        StripEmptyIffAllBlank(s[..|s| - 1]);
      }
    }
  }

  /** `Strip(s)` is `s` with a blank prefix and a blank suffix cut off; as it neither starts
      nor ends with a blank, these are all the blanks at either end. */
  lemma {:induction false} StripCutsBlankEnds(s: string) returns (i: nat, j: nat)
    ensures i <= j <= |s| && Strip(s) == s[i..j]
    ensures AllBlank(s[..i]) && AllBlank(s[j..])
    decreases |s|
  {
    if s == [] {
      i, j := 0, 0;
    } else if IsBlank(s[0]) {
      var i', j' := StripCutsBlankEnds(s[1..]);
      i, j := BlankFirstCut(s, i', j');
    } else if IsBlank(s[|s| - 1]) {
      i, j := StripCutsBlankEnds(s[..|s| - 1]);
      BlankLastCut(s, i, j);
    } else {
      i, j := 0, |s|;
      assert s[0..|s|] == s;
    }
  }

  /** A cut of the rest of `s` after a blank first character is a cut of `s` one further on. */
  lemma BlankFirstCut(s: string, i': nat, j': nat) returns (i: nat, j: nat)
    requires s != [] && IsBlank(s[0])
    requires i' <= j' <= |s| - 1 && AllBlank(s[1..][..i']) && AllBlank(s[1..][j'..])
    ensures i == i' + 1 && j == j' + 1 && s[1..][i'..j'] == s[i..j]
    ensures AllBlank(s[..i]) && AllBlank(s[j..])
  {
    i, j := i' + 1, j' + 1;
    assert s[..i] == [s[0]] + s[1..][..i'];
    AllBlankAppend([s[0]], s[1..][..i']);
    assert s[j..] == s[1..][j'..];
  }

  /** A cut of `s` without its blank last character is a cut of `s`. */
  lemma BlankLastCut(s: string, i: nat, j: nat)
    requires s != [] && IsBlank(s[|s| - 1])
    requires i <= j <= |s| - 1 && AllBlank(s[..|s| - 1][..i]) && AllBlank(s[..|s| - 1][j..])
    ensures s[..|s| - 1][i..j] == s[i..j]
    ensures AllBlank(s[..i]) && AllBlank(s[j..])
  {
    var n := |s| - 1;
    assert s[..n][..i] == s[..i];
    assert s[j..] == s[..n][j..] + [s[n]];
    AllBlankAppend(s[..n][j..], [s[n]]);
  }

  lemma AllBlankAppend(a: string, b: string)
    requires AllBlank(a) && AllBlank(b)
    ensures AllBlank(a + b)
  {
    assert forall i :: 0 <= i < |a + b| ==> (a + b)[i] == if i < |a| then a[i] else b[i - |a|];
  }

  function LowerChar(c: char): char {
    if 'A' <= c <= 'Z' then (c as int + 32) as char else c
  }

  /** `s.lower()` on a byte string: ASCII letters only. */
  function Lower(s: string): (r: string)
    ensures |r| == |s|
    ensures forall i :: 0 <= i < |s| ==> r[i] == LowerChar(s[i])
  {
    if s == [] then [] else [LowerChar(s[0])] + Lower(s[1..])
  }

  predicate IsLetter(c: char) { 'a' <= c <= 'z' || 'A' <= c <= 'Z' || c == '_' }
  predicate IsLetterOrDigit(c: char) { IsLetter(c) || '0' <= c <= '9' }

  /** A single Python NAME token: a letter or underscore followed by letters, digits, underscores. */
  predicate IsPythonName(s: string) {
    |s| > 0 && IsLetter(s[0]) && forall i :: 1 <= i < |s| ==> IsLetterOrDigit(s[i])
  }

  /** `tools.validatedPythonName(name, value)`: the stripped value if it is a single name,
      otherwise the `NameError` it raises (here the offending value). */
  function ValidatedPythonName(value: string): (r: Result<string, string>)
    ensures r.Ok? <==> IsPythonName(Strip(value))
    ensures r.Ok? ==> r.value == Strip(value)
  {
    var s := Strip(value);
    if IsPythonName(s) then Ok(s) else Err(value)
  }

  /** `s.split(sep)`: the parts between the separators, several empty ones where separators meet. */
  function Split(s: string, sep: char): (parts: seq<string>)
    ensures |parts| >= 1
    ensures forall i :: 0 <= i < |parts| ==> sep !in parts[i]
    decreases |s|
  {
    if s == [] then [[]]
    else
      var rest := Split(s[1..], sep);
      if s[0] == sep then [[]] + rest else [[s[0]] + rest[0]] + rest[1..]
  }

  /** `sep.join(parts)`. */
  function Join(parts: seq<string>, sep: char): string
    decreases |parts|
  {
    if parts == [] then [] else if |parts| == 1 then parts[0] else parts[0] + [sep] + Join(parts[1..], sep)
  }

  /** Joining one more part adds the separator and that part. */
  lemma {:induction false} JoinSnoc(parts: seq<string>, last: string, sep: char)
    ensures Join(parts + [last], sep) == if parts == [] then last else Join(parts, sep) + [sep] + last
    decreases |parts|
  {
    if |parts| == 1 {
      assert parts + [last] == [parts[0], last];
    } else if |parts| > 1 {
      JoinSnoc(parts[1..], last, sep);
      assert (parts + [last])[1..] == parts[1..] + [last];
    } else {
      assert parts + [last] == [last];
    }
  }

  /** Splitting and joining again on the same separator gives back the original string. */
  lemma {:induction false} JoinSplit(s: string, sep: char)
    ensures Join(Split(s, sep), sep) == s
    decreases |s|
  {
    if s != [] {
      JoinSplit(s[1..], sep);
      var rest := Split(s[1..], sep);
      if s[0] != sep {
        if |rest| > 1 {
          assert Join(rest, sep) == rest[0] + [sep] + Join(rest[1..], sep);
        }
      }
    }
  }
}
