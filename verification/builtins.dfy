/** The runtime library the generated programs call (Builtins.java). Every operation
    checks that its arguments and its result hold only allowed ASCII characters and
    otherwise fails with a message naming the first offending character. */
module Builtins {
  import opened Text
  import Wrappers

  /** A returned string, or the `IllegalArgumentException` message. */
  datatype Outcome = Ok(value: string) | Fail(message: string) {

    predicate IsFailure() {
      Fail?
    }

    function PropagateFailure(): Outcome
      requires Fail?
    {
      this
    }

    function Extract(): string
      requires Ok?
    {
      value
    }
  }

  function Rejection(c: char): string {
    "Non-ASCII character detected: '" + [c] + "'"
  }

  /** The position of the first character outside the allowed set. */
  function FirstDisallowed(s: string): (i: nat)
    requires !AllAllowed(s)
    ensures i < |s| && !AsciiAllowed(s[i]) && AllAllowed(s[..i])
  {
    if !AsciiAllowed(s[0]) then 0
    else
      var i := 1 + FirstDisallowed(s[1..]);
      assert s[..i] == [s[0]] + s[1..][..i - 1];
      i
  }

  /** `ensureAscii` as a value: the string itself when every character is allowed,
      otherwise the rejection of the first one that is not. */
  function CheckAscii(value: string): (r: Outcome)
    ensures r.Ok? <==> AllAllowed(value)
    ensures r.Ok? ==> r.value == value
    ensures r.Fail? ==> r.message == Rejection(value[FirstDisallowed(value)])
  {
    if AllAllowed(value) then Ok(value) else Fail(Rejection(value[FirstDisallowed(value)]))
  }

  lemma FirstDisallowedAt(s: string, i: nat)
    requires i < |s| && !AsciiAllowed(s[i]) && AllAllowed(s[..i])
    ensures !AllAllowed(s) && FirstDisallowed(s) == i
  {
  }

  /** `ensureAscii`: scans left to right and stops at the first disallowed character. */
  method EnsureAscii(value: string) returns (r: Outcome)
    ensures r == CheckAscii(value)
  {
    for i := 0 to |value|
      invariant AllAllowed(value[..i])
    {
      var code := value[i] as int;
      if !(code == 0x09 || code == 0x0A || code == 0x0D || (code >= 0x20 && code <= 0x7E)) {
        FirstDisallowedAt(value, i);
        return Fail(Rejection(value[i]));
      }
      assert value[..i + 1] == value[..i] + [value[i]];
    }
    assert value[..|value|] == value;
    return Ok(value);
  }

  /** `id`. */
  function Id(input: string): (r: Outcome)
    ensures r.Ok? <==> AllAllowed(input)
    ensures r.Ok? ==> r.value == input
  {
    CheckAscii(input)
  }

  /** `constValue`: the argument itself, whatever the value in the pipeline was. */
  function ConstValue(value: string): (r: Outcome)
    ensures r.Ok? <==> AllAllowed(value)
    ensures r.Ok? ==> r.value == value
  {
    CheckAscii(value)
  }

  /** `append`: the input is checked before the suffix. */
  function Append(input: string, suffix: string): (r: Outcome)
    ensures r.Ok? <==> AllAllowed(input) && AllAllowed(suffix)
    ensures r.Ok? ==> r.value == input + suffix
    ensures !AllAllowed(input) ==> r == CheckAscii(input)
  {
    var a :- CheckAscii(input);
    var b :- CheckAscii(suffix);
    CheckAscii(a + b)
  }

  /** `prepend`: the prefix is checked before the input. */
  function Prepend(input: string, prefix: string): (r: Outcome)
    ensures r.Ok? <==> AllAllowed(input) && AllAllowed(prefix)
    ensures r.Ok? ==> r.value == prefix + input
    ensures !AllAllowed(prefix) ==> r == CheckAscii(prefix)
  {
    var p :- CheckAscii(prefix);
    var a :- CheckAscii(input);
    CheckAscii(p + a)
  }

  /** `wrap`: prefix, input and suffix are checked in that order. */
  function Wrap(input: string, prefix: string, suffix: string): (r: Outcome)
    ensures r.Ok? <==> AllAllowed(input) && AllAllowed(prefix) && AllAllowed(suffix)
    ensures r.Ok? ==> r.value == prefix + input + suffix
    ensures !AllAllowed(prefix) ==> r == CheckAscii(prefix)
    ensures AllAllowed(prefix) && !AllAllowed(input) ==> r == CheckAscii(input)
  {
    var p :- CheckAscii(prefix);
    var a :- CheckAscii(input);
    var s :- CheckAscii(suffix);
    CheckAscii(p + a + s)
  }

  /** Wrapping with `p` and `s` and then cutting `|p|` and `|s|` characters off the ends
      gives the input back. */
  lemma WrapRoundTrip(input: string, prefix: string, suffix: string)
    requires Wrap(input, prefix, suffix).Ok?
    ensures var w := Wrap(input, prefix, suffix).value;
      |w| == |prefix| + |input| + |suffix| && w[|prefix|..|w| - |suffix|] == input
  {
    var w := prefix + input + suffix;
    assert w[|prefix|..|w| - |suffix|] == input;
  }

  // ---- upper, lower, trim ----

  function UpperChar(c: char): char {
    if 'a' <= c <= 'z' then (c as int - 32) as char else c
  }

  function LowerChar(c: char): char {
    if 'A' <= c <= 'Z' then (c as int + 32) as char else c
  }

  function MapUpper(s: string): string {
    seq(|s|, i requires 0 <= i < |s| => UpperChar(s[i]))
  }

  function MapLower(s: string): string {
    seq(|s|, i requires 0 <= i < |s| => LowerChar(s[i]))
  }

  /** `upper`: ASCII letters a..z become A..Z; every other character is kept. */
  function Upper(input: string): (r: Outcome)
    ensures r.Ok? <==> AllAllowed(input)
    ensures r.Ok? ==> |r.value| == |input|
    ensures r.Ok? ==> forall i | 0 <= i < |input| ::
      r.value[i] == input[i] || ('a' <= input[i] <= 'z' && r.value[i] as int == input[i] as int - 32)
    ensures r.Ok? ==> forall i | 0 <= i < |input| :: !('a' <= r.value[i] <= 'z')
  {
    var u := MapUpper(input);
    assert AllAllowed(u) <==> AllAllowed(input) by {
      assert forall i | 0 <= i < |input| :: AsciiAllowed(u[i]) == AsciiAllowed(input[i]);
    }
    CheckAscii(u)
  }

  /** `lower`: ASCII letters A..Z become a..z; every other character is kept. */
  function Lower(input: string): (r: Outcome)
    ensures r.Ok? <==> AllAllowed(input)
    ensures r.Ok? ==> |r.value| == |input|
    ensures r.Ok? ==> forall i | 0 <= i < |input| ::
      r.value[i] == input[i] || ('A' <= input[i] <= 'Z' && r.value[i] as int == input[i] as int + 32)
    ensures r.Ok? ==> forall i | 0 <= i < |input| :: !('A' <= r.value[i] <= 'Z')
  {
    var l := MapLower(input);
    assert AllAllowed(l) <==> AllAllowed(input) by {
      assert forall i | 0 <= i < |input| :: AsciiAllowed(l[i]) == AsciiAllowed(input[i]);
    }
    CheckAscii(l)
  }

  lemma UpperIdempotent(input: string)
    requires Upper(input).Ok?
    ensures Upper(Upper(input).value) == Upper(input)
  {
    var u := Upper(input).value;
    assert MapUpper(u) == u;
  }

  lemma LowerIdempotent(input: string)
    requires Lower(input).Ok?
    ensures Lower(Lower(input).value) == Lower(input)
  {
    var l := Lower(input).value;
    assert MapLower(l) == l;
  }

  /** Drops the leading characters at or below the space. */
  function StripLeading(s: string): (r: string)
    ensures |r| <= |s| && r == s[|s| - |r|..]
    ensures r == [] || r[0] > ' '
  {
    if s != [] && s[0] <= ' ' then StripLeading(s[1..]) else s
  }

  /** Every character `StripLeading` drops is at or below the space. */
  lemma {:induction false} StripLeadingDrops(s: string)
    ensures forall i | 0 <= i < |s| - |StripLeading(s)| :: s[i] <= ' '
  {
    if s != [] && s[0] <= ' ' {
      StripLeadingDrops(s[1..]);
      forall i | 1 <= i < |s| - |StripLeading(s)| ensures s[i] <= ' ' {
        assert s[1..][i - 1] == s[i];
      }
    }
  }

  /** Drops the trailing characters at or below the space. */
  function StripTrailing(s: string): (r: string)
    ensures |r| <= |s| && r == s[..|r|]
    ensures r == [] || r[|r| - 1] > ' '
  {
    if s != [] && s[|s| - 1] <= ' ' then StripTrailing(s[..|s| - 1]) else s
  }

  /** Every character `StripTrailing` drops is at or below the space. */
  lemma {:induction false} StripTrailingDrops(s: string)
    ensures forall i | |StripTrailing(s)| <= i < |s| :: s[i] <= ' '
  {
    if s != [] && s[|s| - 1] <= ' ' {
      StripTrailingDrops(s[..|s| - 1]);
      forall i | |StripTrailing(s)| <= i < |s| - 1 ensures s[i] <= ' ' {
        assert s[..|s| - 1][i] == s[i];
      }
    }
  }

  /** `String.trim`: both ends lose their characters at or below the space. */
  function JavaTrim(s: string): string {
    StripTrailing(StripLeading(s))
  }

  /** `trim`; characters at or below the space go before the check, so a disallowed
      control character at either end is dropped rather than rejected. */
  function Trim(input: string): (r: Outcome)
    ensures r.Ok? <==> AllAllowed(JavaTrim(input))
    ensures r.Ok? ==> r.value == [] || (r.value[0] > ' ' && r.value[|r.value| - 1] > ' ')
  {
    CheckAscii(JavaTrim(input))
  }

  /** A slice of an allowed string is allowed. */
  lemma AllowedSlice(s: string, i: nat, j: nat)
    requires AllAllowed(s) && i <= j <= |s|
    ensures AllAllowed(s[i..j])
  {
    forall k | 0 <= k < j - i ensures AsciiAllowed(s[i..j][k]) {
      assert s[i..j][k] == s[i + k];
    }
  }

  /** What `trim` keeps is one contiguous piece of its input. */
  lemma TrimSlice(input: string)
    ensures var t := JavaTrim(input); var i := |input| - |StripLeading(input)|;
      i + |t| <= |input| && t == input[i..i + |t|]
  {
    var l := StripLeading(input);
    var t := StripTrailing(l);
    PrefixOfSuffix(input, |input| - |l|, |t|);
  }

  lemma PrefixOfSuffix(s: string, i: nat, n: nat)
    requires i + n <= |s|
    ensures s[i..][..n] == s[i..i + n]
  {
  }

  /** So `trim` never rejects allowed input. */
  lemma TrimKeepsAllowed(input: string)
    requires AllAllowed(input)
    ensures Trim(input).Ok?
  {
    TrimSlice(input);
    var t := JavaTrim(input);
    var i := |input| - |StripLeading(input)|;
    AllowedSlice(input, i, i + |t|);
  }

  lemma TrimIdempotent(input: string)
    requires Trim(input).Ok?
    ensures Trim(Trim(input).value) == Trim(input)
  {
    var t := Trim(input).value;
    assert StripLeading(t) == t;
    assert StripTrailing(t) == t;
  }

  // ---- replace ----

  predicate OccursAt(s: string, target: string, i: nat) {
    i + |target| <= |s| && s[i..i + |target|] == target
  }

  predicate Occurs(s: string, target: string) {
    exists i | 0 <= i <= |s| :: OccursAt(s, target, i)
  }

  /** `String.replace(target, replacement)`: every non-overlapping occurrence of the
      target, found left to right, is replaced literally; an empty target matches
      before every character and at the end. */
  function ReplaceAll(s: string, target: string, replacement: string): (r: string)
    ensures forall c | c in r :: c in s || c in replacement
    decreases |s|
  {
    if target == [] then
      if s == [] then replacement
      else
        var rest := ReplaceAll(s[1..], target, replacement);
        assert forall c | c in rest :: c in s || c in replacement by {
          forall c | c in rest ensures c in s || c in replacement {
            if c in s[1..] {
              var k :| 0 <= k < |s[1..]| && s[1..][k] == c;
              assert s[k + 1] == c;
            }
          }
        }
        replacement + [s[0]] + rest
    else if |s| < |target| then s
    else if s[..|target|] == target then
      var rest := ReplaceAll(s[|target|..], target, replacement);
      assert forall c | c in rest :: c in s || c in replacement by {
        forall c | c in rest ensures c in s || c in replacement {
          if c in s[|target|..] {
            var k :| 0 <= k < |s[|target|..]| && s[|target|..][k] == c;
            assert s[k + |target|] == c;
          }
        }
      }
      replacement + rest
    else
      var rest := ReplaceAll(s[1..], target, replacement);
      assert forall c | c in rest :: c in s || c in replacement by {
        forall c | c in rest ensures c in s || c in replacement {
          if c in s[1..] {
            var k :| 0 <= k < |s[1..]| && s[1..][k] == c;
            assert s[k + 1] == c;
          }
        }
      }
      [s[0]] + rest
  }

  /** `replace`: input, target and replacement are checked in that order. */
  function Replace(input: string, target: string, replacement: string): (r: Outcome)
    ensures r.Ok? <==> AllAllowed(input) && AllAllowed(target) && AllAllowed(replacement)
    ensures r.Ok? ==> r.value == ReplaceAll(input, target, replacement)
    ensures !AllAllowed(input) ==> r == CheckAscii(input)
  {
    var s :- CheckAscii(input);
    var t :- CheckAscii(target);
    var p :- CheckAscii(replacement);
    var out := ReplaceAll(s, t, p);
    assert AllAllowed(out) by {
      forall k | 0 <= k < |out| ensures AsciiAllowed(out[k]) {
        assert out[k] in out;
        if out[k] in s {
          var j :| 0 <= j < |s| && s[j] == out[k];
        } else {
          var j :| 0 <= j < |p| && p[j] == out[k];
        }
      }
    }
    CheckAscii(out)
  }

  /** A non-empty target that does not occur leaves the string unchanged. */
  lemma {:induction false} ReplaceAbsent(s: string, target: string, replacement: string)
    requires target != [] && !Occurs(s, target)
    ensures ReplaceAll(s, target, replacement) == s
    decreases |s|
  {
    if |s| >= |target| {
      assert !OccursAt(s, target, 0);
      assert !Occurs(s[1..], target) by {
        forall i | 0 <= i <= |s[1..]| ensures !OccursAt(s[1..], target, i) {
          assert !OccursAt(s, target, i + 1);
          if i + |target| <= |s[1..]| {
            assert s[1..][i..i + |target|] == s[i + 1..i + 1 + |target|];
          }
        }
      }
      ReplaceAbsent(s[1..], target, replacement);
      assert s == [s[0]] + s[1..];
    }
  }

  /** Replacing a string by itself changes nothing, the empty target included. */
  lemma {:induction false} ReplaceBySelf(s: string, target: string)
    ensures ReplaceAll(s, target, target) == s
    decreases |s|
  {
    if target == [] {
      if s != [] {
        ReplaceBySelf(s[1..], target);
        assert s == [s[0]] + s[1..];
      }
    } else if |s| >= |target| {
      if s[..|target|] == target {
        ReplaceBySelf(s[|target|..], target);
        assert s == s[..|target|] + s[|target|..];
      } else {
        ReplaceBySelf(s[1..], target);
        assert s == [s[0]] + s[1..];
      }
    }
  }

  /** The empty target puts the replacement before every character and at the end. */
  lemma {:induction false} ReplaceEmptyTarget(s: string, replacement: string)
    ensures |ReplaceAll(s, [], replacement)| == |s| + (|s| + 1) * |replacement|
    decreases |s|
  {
    if s != [] {
      ReplaceEmptyTarget(s[1..], replacement);
    }
  }

  /** Where the target does not start inside `a`, replacing in `a + rest` keeps `a` and
      works on `rest` alone. */
  lemma {:induction false} ReplaceSkipsClean(a: string, rest: string, target: string, replacement: string)
    requires target != []
    requires forall i | 0 <= i < |a| :: !OccursAt(a + rest, target, i)
    ensures ReplaceAll(a + rest, target, replacement) == a + ReplaceAll(rest, target, replacement)
    decreases |a|
  {
    if a == [] {
      assert a + rest == rest;
    } else {
      var s := a + rest;
      assert !OccursAt(s, target, 0);
      assert s[1..] == a[1..] + rest;
      forall i | 0 <= i < |a[1..]| ensures !OccursAt(a[1..] + rest, target, i) {
        assert !OccursAt(s, target, i + 1);
        if i + |target| <= |s[1..]| {
          assert s[1..][i..i + |target|] == s[i + 1..i + 1 + |target|];
        }
      }
      ReplaceSkipsClean(a[1..], rest, target, replacement);
      if |s| < |target| {
        assert ReplaceAll(rest, target, replacement) == rest;
      } else {
        assert ReplaceAll(s, target, replacement) == [s[0]] + ReplaceAll(s[1..], target, replacement);
        assert s[0] == a[0];
        assert a == [a[0]] + a[1..];
        AppendAssoc([a[0]], a[1..], ReplaceAll(rest, target, replacement));
      }
    }
  }

  /** The documented use of `wrap` and `replace` together: a wrapped value comes back by
      replacing the prefix and then the suffix with nothing, provided the prefix occurs
      only at the front and the suffix first occurs at the back. */
  lemma UnwrapByReplace(input: string, prefix: string, suffix: string)
    requires Wrap(input, prefix, suffix).Ok?
    requires prefix != [] && suffix != []
    requires !Occurs(input + suffix, prefix)
    requires forall i | 0 <= i < |input| :: !OccursAt(input + suffix, suffix, i)
    ensures var w := Wrap(input, prefix, suffix).value;
      Replace(w, prefix, "") == Ok(input + suffix) && Replace(input + suffix, suffix, "") == Ok(input)
  {
    var w := prefix + input + suffix;
    assert w[..|prefix|] == prefix && w[|prefix|..] == input + suffix;
    ReplaceAbsent(input + suffix, prefix, "");
    assert ReplaceAll(w, prefix, "") == input + suffix;
    ReplaceSkipsClean(input, suffix, suffix, "");
    assert suffix[..|suffix|] == suffix && suffix[|suffix|..] == [];
    assert ReplaceAll(suffix, suffix, "") == [];
    assert input + [] == input;
  }

  // ---- indent ----

  function PrefixAll(prefix: string, lines: seq<string>): seq<string> {
    seq(|lines|, i requires 0 <= i < |lines| => prefix + lines[i])
  }

  /** `indent` as a value: every line of the input, the empty ones included, gets the
      prefix. The prefix is checked before the input. */
  function Indented(input: string, prefix: string): (r: Outcome)
    ensures r.Ok? <==> AllAllowed(input) && AllAllowed(prefix)
    ensures !AllAllowed(prefix) ==> r == CheckAscii(prefix)
    ensures AllAllowed(prefix) && !AllAllowed(input) ==> r == CheckAscii(input)
  {
    var p :- CheckAscii(prefix);
    var v :- CheckAscii(input);
    var lines := PrefixAll(p, Split(v));
    assert forall i | 0 <= i < |lines| :: AllAllowed(lines[i]);
    JoinAllowed(lines);
    CheckAscii(Join(lines))
  }

  /** With a prefix free of LF, the lines of the result are the input's lines, each
      with the prefix in front; so the result has exactly as many LFs as the input. */
  lemma IndentPrefixesEveryLine(input: string, prefix: string)
    requires Indented(input, prefix).Ok? && '\n' !in prefix
    ensures Split(Indented(input, prefix).value) == PrefixAll(prefix, Split(input))
    ensures CountNewlines(Indented(input, prefix).value) == CountNewlines(input)
  {
    var lines := PrefixAll(prefix, Split(input));
    forall i | 0 <= i < |lines| ensures '\n' !in lines[i] {
      assert lines[i] == prefix + Split(input)[i];
    }
    SplitJoin(lines);
  }

  /** The empty prefix gives the input back. */
  lemma IndentEmptyPrefix(input: string)
    ensures Indented(input, "") == CheckAscii(input)
  {
    if AllAllowed(input) {
      var lines := Split(input);
      assert forall i | 0 <= i < |lines| :: PrefixAll("", lines)[i] == "" + lines[i] == lines[i];
      assert PrefixAll("", lines) == lines;
    }
  }

  /** `indent`: splits the checked input and writes each line after the prefix, with an
      LF before every line but the first. */
  method Indent(input: string, prefix: string) returns (r: Outcome)
    ensures r == Indented(input, prefix)
  {
    var validatedPrefix :- EnsureAscii(prefix);
    var checked :- EnsureAscii(input);
    var lines := Split(checked);
    var sb := "";
    for i := 0 to |lines|
      invariant sb == Join(PrefixAll(validatedPrefix, lines[..i]))
    {
      if i > 0 {
        sb := sb + "\n";
      }
      sb := sb + validatedPrefix + lines[i];
      assert PrefixAll(validatedPrefix, lines[..i + 1])[..i] == PrefixAll(validatedPrefix, lines[..i]);
    }
    assert lines[..|lines|] == lines;
    r := EnsureAscii(sb);
  }

  // ---- trimIndent ----

  /** Java's `Integer.MAX_VALUE`, the starting value of the running minimum. */
  const IntMax: nat := 0x7FFF_FFFF

  function Min(a: nat, b: nat): nat {
    if a <= b then a else b
  }

  /** The first position from `i` on holding a character above the space, or the end. */
  function FirstAbove(line: string, i: nat): (r: nat)
    requires i <= |line|
    ensures i <= r <= |line|
    decreases |line| - i
  {
    if i < |line| && line[i] <= ' ' then FirstAbove(line, i + 1) else i
  }

  /** The search runs to the end exactly when nothing from `i` on is above the space. */
  lemma {:induction false} FirstAboveChars(line: string, i: nat)
    requires i <= |line|
    ensures FirstAbove(line, i) == |line| <==> forall k | i <= k < |line| :: line[k] <= ' '
    decreases |line| - i
  {
    if i < |line| && line[i] <= ' ' {
      FirstAboveChars(line, i + 1);
    }
  }

  /** A line holding nothing above the space. */
  predicate Blank(line: string) {
    FirstAbove(line, 0) == |line|
  }

  lemma BlankChars(line: string)
    ensures Blank(line) <==> forall k | 0 <= k < |line| :: line[k] <= ' '
  {
    FirstAboveChars(line, 0);
  }

  /** `line.trim().isEmpty()` holds exactly for blank lines. */
  lemma BlankIsTrimEmpty(line: string)
    ensures Blank(line) <==> JavaTrim(line) == []
  {
    BlankChars(line);
    var l := StripLeading(line);
    StripLeadingDrops(line);
    StripTrailingDrops(l);
    assert JavaTrim(line) == [] ==> l == [];
  }

  /** Counts the spaces and tabs at the front of `line` from position `count` on. */
  function LeadingFrom(line: string, count: nat): (r: nat)
    requires count <= |line|
    ensures count <= r <= |line|
    ensures forall k | count <= k < r :: line[k] == ' ' || line[k] == '\t'
    ensures r < |line| ==> line[r] != ' ' && line[r] != '\t'
    decreases |line| - count
  {
    if count < |line| && (line[count] == ' ' || line[count] == '\t') then LeadingFrom(line, count + 1) else count
  }

  /** The number of spaces and tabs a line starts with. */
  function LeadingBlanks(line: string): nat {
    LeadingFrom(line, 0)
  }

  /** The first line from `start` on that is not blank, or the end. */
  function SkipBlankFront(lines: seq<string>, start: nat): (r: nat)
    requires start <= |lines|
    ensures start <= r <= |lines|
    ensures r < |lines| ==> !Blank(lines[r])
    decreases |lines| - start
  {
    if start < |lines| && Blank(lines[start]) then SkipBlankFront(lines, start + 1) else start
  }

  /** Every line `SkipBlankFront` passes over is blank. */
  lemma {:induction false} SkipBlankFrontSkipsBlanks(lines: seq<string>, start: nat)
    requires start <= |lines|
    ensures forall i | start <= i < SkipBlankFront(lines, start) :: Blank(lines[i])
    decreases |lines| - start
  {
    if start < |lines| && Blank(lines[start]) {
      SkipBlankFrontSkipsBlanks(lines, start + 1);
    }
  }

  /** One past the last line before `stop` that is not blank, but never below `start`. */
  function SkipBlankBack(lines: seq<string>, start: nat, stop: nat): (r: nat)
    requires start <= stop <= |lines|
    ensures start <= r <= stop
    ensures r > start ==> !Blank(lines[r - 1])
    decreases stop
  {
    if stop > start && Blank(lines[stop - 1]) then SkipBlankBack(lines, start, stop - 1) else stop
  }

  /** Every line `SkipBlankBack` drops is blank. */
  lemma {:induction false} SkipBlankBackDropsBlanks(lines: seq<string>, start: nat, stop: nat)
    requires start <= stop <= |lines|
    ensures forall i | SkipBlankBack(lines, start, stop) <= i < stop :: Blank(lines[i])
    decreases stop
  {
    if stop > start && Blank(lines[stop - 1]) {
      SkipBlankBackDropsBlanks(lines, start, stop - 1);
    }
  }

  /** The running minimum of leading blanks over the lines `i..stop` that are not blank. */
  function MinIndent(lines: seq<string>, i: nat, stop: nat, indent: nat): (r: nat)
    requires i <= stop <= |lines|
    ensures r <= indent
    decreases stop - i
  {
    if i >= stop then indent
    else if Blank(lines[i]) then MinIndent(lines, i + 1, stop, indent)
    else MinIndent(lines, i + 1, stop, Min(indent, LeadingBlanks(lines[i])))
  }

  /** The minimum is no larger than the indentation of any non-blank line it covers. */
  lemma {:induction false} MinIndentBelow(lines: seq<string>, i: nat, stop: nat, indent: nat, j: nat)
    requires i <= j < stop <= |lines| && !Blank(lines[j])
    ensures MinIndent(lines, i, stop, indent) <= LeadingBlanks(lines[j])
    decreases stop - i
  {
    if j > i {
      if Blank(lines[i]) {
        MinIndentBelow(lines, i + 1, stop, indent, j);
      } else {
        MinIndentBelow(lines, i + 1, stop, Min(indent, LeadingBlanks(lines[i])), j);
      }
    }
  }

  /** Unless it is the starting value, the minimum is the indentation of one of the
      non-blank lines it covers. */
  lemma {:induction false} MinIndentAttained(lines: seq<string>, i: nat, stop: nat, indent: nat)
    requires i <= stop <= |lines|
    ensures var r := MinIndent(lines, i, stop, indent);
      r == indent || exists j | i <= j < stop :: !Blank(lines[j]) && r == LeadingBlanks(lines[j])
    decreases stop - i
  {
    if i < stop {
      if Blank(lines[i]) {
        MinIndentAttained(lines, i + 1, stop, indent);
      } else {
        MinIndentAttained(lines, i + 1, stop, Min(indent, LeadingBlanks(lines[i])));
      }
    }
  }

  /** The lines `start..stop`, each without its first `indent` characters (or all of
      them, when shorter). */
  function CutLines(lines: seq<string>, start: nat, stop: nat, indent: nat): seq<string>
    requires start <= stop <= |lines|
  {
    seq(stop - start, k requires 0 <= k < stop - start => lines[start + k][Min(indent, |lines[start + k]|)..])
  }

  /** The lines `trimIndent` keeps: blank lines at either end dropped, then the
      smallest indentation of the remaining non-blank lines cut from every line. */
  function Dedent(lines: seq<string>): seq<string> {
    var start := SkipBlankFront(lines, 0);
    var stop := SkipBlankBack(lines, start, |lines|);
    if start >= stop then []
    else
      var m := MinIndent(lines, start, stop, IntMax);
      CutLines(lines, start, stop, if m == IntMax then 0 else m)
  }

  /** `trimIndent` as a value. */
  function TrimmedIndent(input: string): (r: Outcome)
    ensures r.Ok? <==> AllAllowed(input)
    ensures r.Ok? && r.value != [] ==> Dedent(Split(input)) != []
  {
    var v :- CheckAscii(input);
    var kept := Dedent(Split(v));
    if kept == [] then Ok("")
    else
      DedentAllowed(Split(v));
      JoinAllowed(kept);
      CheckAscii(Join(kept))
  }

  lemma DedentAllowed(lines: seq<string>)
    requires forall i | 0 <= i < |lines| :: AllAllowed(lines[i])
    ensures forall i | 0 <= i < |Dedent(lines)| :: AllAllowed(Dedent(lines)[i])
  {
    var kept := Dedent(lines);
    forall i | 0 <= i < |kept| ensures AllAllowed(kept[i]) {
      var start := SkipBlankFront(lines, 0);
      var line := lines[start + i];
      assert kept[i] == line[|line| - |kept[i]|..];
      forall k | 0 <= k < |kept[i]| ensures AsciiAllowed(kept[i][k]) {
        assert kept[i][k] == line[|line| - |kept[i]| + k];
      }
    }
  }

  /** Input whose lines are all blank trims to the empty string. */
  lemma TrimIndentAllBlank(input: string)
    requires AllAllowed(input)
    requires forall i | 0 <= i < |Split(input)| :: Blank(Split(input)[i])
    ensures TrimmedIndent(input) == Ok("")
  {
  }

  /** Cutting a non-blank line by at most its leading blanks keeps it non-blank and
      removes exactly that many leading blanks. */
  lemma CutNonBlank(line: string, m: nat)
    requires !Blank(line) && m <= LeadingBlanks(line)
    ensures !Blank(line[m..]) && LeadingBlanks(line[m..]) == LeadingBlanks(line) - m
  {
    BlankChars(line);
    var k :| 0 <= k < |line| && line[k] > ' ';
    assert k >= LeadingBlanks(line);
    assert line[m..][k - m] > ' ';
    BlankChars(line[m..]);
    LeadingFromSame(line, 0, m);
    LeadingShift(line, m, m);
  }

  /** Counting from the front of `line[m..]` is counting from `m` in `line`. */
  lemma {:induction false} LeadingShift(line: string, m: nat, c: nat)
    requires m <= c <= |line|
    ensures LeadingFrom(line[m..], c - m) == LeadingFrom(line, c) - m
    decreases |line| - c
  {
    if c < |line| && (line[c] == ' ' || line[c] == '\t') {
      assert line[m..][c - m] == line[c];
      LeadingShift(line, m, c + 1);
    }
  }

  /** Over a run of spaces and tabs the count does not depend on where it starts. */
  lemma {:induction false} LeadingFromSame(line: string, i: nat, c: nat)
    requires i <= c <= |line| && forall k | i <= k < c :: line[k] == ' ' || line[k] == '\t'
    ensures LeadingFrom(line, i) == LeadingFrom(line, c)
    decreases c - i
  {
    if i < c {
      LeadingFromSame(line, i + 1, c);
    }
  }

  /** Cutting a blank line keeps it blank. */
  lemma CutBlank(line: string, c: nat)
    requires Blank(line) && c <= |line|
    ensures Blank(line[c..])
  {
    BlankChars(line);
    assert forall k | 0 <= k < |line[c..]| :: line[c..][k] == line[c + k];
    BlankChars(line[c..]);
  }

  /** A kept non-blank line cut by a common indentation no larger than its own keeps
      its remaining blanks in front and stays non-blank. */
  lemma CutKept(lines: seq<string>, start: nat, stop: nat, m: nat, j: nat)
    requires start <= j < stop <= |lines|
    requires !Blank(lines[j]) && m <= LeadingBlanks(lines[j])
    ensures var cut := CutLines(lines, start, stop, m)[j - start];
      !Blank(cut) && LeadingBlanks(cut) == LeadingBlanks(lines[j]) - m
  {
    assert Min(m, |lines[j]|) == m;
    assert CutLines(lines, start, stop, m)[j - start] == lines[j][m..];
    CutNonBlank(lines[j], m);
  }

  /** Cutting the smallest indentation from lines that start and end non-blank leaves
      them starting and ending non-blank, with one line no longer indented. */
  lemma CutLinesShape(lines: seq<string>, start: nat, stop: nat, m: nat, j0: nat)
    requires start <= j0 < stop <= |lines|
    requires !Blank(lines[start]) && !Blank(lines[stop - 1])
    requires m == MinIndent(lines, start, stop, IntMax)
    requires !Blank(lines[j0]) && m == LeadingBlanks(lines[j0])
    ensures var kept := CutLines(lines, start, stop, m);
      && !Blank(kept[0]) && !Blank(kept[|kept| - 1])
      && !Blank(kept[j0 - start]) && LeadingBlanks(kept[j0 - start]) == 0
  {
    MinIndentBelow(lines, start, stop, IntMax, start);
    CutKept(lines, start, stop, m, start);
    MinIndentBelow(lines, start, stop, IntMax, stop - 1);
    CutKept(lines, start, stop, m, stop - 1);
    CutKept(lines, start, stop, m, j0);
  }

  /** Kept lines are the range between the blank ends, cut by the smallest indentation
      of its non-blank lines, which one of them attains. */
  lemma DedentCut(lines: seq<string>) returns (start: nat, stop: nat, m: nat, j0: nat)
    requires Dedent(lines) != []
    requires forall i | 0 <= i < |lines| :: |lines[i]| < IntMax
    ensures start <= j0 < stop <= |lines|
    ensures !Blank(lines[start]) && !Blank(lines[stop - 1])
    ensures Dedent(lines) == CutLines(lines, start, stop, m)
    ensures !Blank(lines[j0]) && m == LeadingBlanks(lines[j0])
    ensures m == MinIndent(lines, start, stop, IntMax)
  {
    start := SkipBlankFront(lines, 0);
    stop := SkipBlankBack(lines, start, |lines|);
    assert start < stop;
    assert !Blank(lines[start]) && !Blank(lines[stop - 1]);
    m := MinIndent(lines, start, stop, IntMax);
    MinIndentBelow(lines, start, stop, IntMax, start);
    assert m < IntMax;
    MinIndentAttained(lines, start, stop, IntMax);
    j0 :| start <= j0 < stop && !Blank(lines[j0]) && m == LeadingBlanks(lines[j0]);
  }

  /** The lines kept by `trimIndent` begin and end with a non-blank line, and when no
      line is absurdly long one of them has no indentation left. */
  lemma DedentShape(lines: seq<string>)
    requires Dedent(lines) != []
    requires forall i | 0 <= i < |lines| :: |lines[i]| < IntMax
    ensures var kept := Dedent(lines);
      && !Blank(kept[0]) && !Blank(kept[|kept| - 1])
      && exists j | 0 <= j < |kept| :: !Blank(kept[j]) && LeadingBlanks(kept[j]) == 0
  {
    var start, stop, m, j0 := DedentCut(lines);
    var kept := Dedent(lines);
    CutLinesShape(lines, start, stop, m, j0);
    assert !Blank(kept[j0 - start]) && LeadingBlanks(kept[j0 - start]) == 0;
  }

  /** Kept lines that start and end non-blank and include one without indentation are
      left as they are. */
  lemma DedentFixed(kept: seq<string>)
    requires kept != [] && !Blank(kept[0]) && !Blank(kept[|kept| - 1])
    requires exists j | 0 <= j < |kept| :: !Blank(kept[j]) && LeadingBlanks(kept[j]) == 0
    ensures Dedent(kept) == kept
  {
    assert SkipBlankFront(kept, 0) == 0;
    assert SkipBlankBack(kept, 0, |kept|) == |kept|;
    var m := MinIndent(kept, 0, |kept|, IntMax);
    var j :| 0 <= j < |kept| && !Blank(kept[j]) && LeadingBlanks(kept[j]) == 0;
    MinIndentBelow(kept, 0, |kept|, IntMax, j);
    assert m == 0;
    assert CutLines(kept, 0, |kept|, 0) == kept;
  }

  /** The kept lines are pieces of the original lines, so they hold no LF either. */
  lemma DedentNoNewline(lines: seq<string>)
    requires forall i | 0 <= i < |lines| :: '\n' !in lines[i]
    ensures forall i | 0 <= i < |Dedent(lines)| :: '\n' !in Dedent(lines)[i]
  {
    var kept := Dedent(lines);
    if kept != [] {
      var start := SkipBlankFront(lines, 0);
      var stop := SkipBlankBack(lines, start, |lines|);
      var m := MinIndent(lines, start, stop, IntMax);
      var indent := if m == IntMax then 0 else m;
      assert kept == CutLines(lines, start, stop, indent);
      forall i | 0 <= i < |kept| ensures '\n' !in kept[i] {
        var line := lines[start + i];
        var cut := Min(indent, |line|);
        assert kept[i] == line[cut..];
      }
    }
  }

  lemma TrimIndentOfEmpty()
    ensures TrimmedIndent("") == Ok("")
  {
    assert Split("") == [""];
    assert Dedent([""]) == [];
  }

  /** `trimIndent` is idempotent: its output is already trimmed. */
  lemma TrimIndentIdempotent(input: string)
    requires TrimmedIndent(input).Ok? && |input| < IntMax
    ensures TrimmedIndent(TrimmedIndent(input).value) == TrimmedIndent(input)
  {
    if Dedent(Split(input)) == [] {
      assert TrimmedIndent(input) == Ok("");
      TrimIndentOfEmpty();
    } else {
      TrimIndentKeptFixed(input);
    }
  }

  lemma TrimIndentKeptFixed(input: string)
    requires AllAllowed(input) && |input| < IntMax && Dedent(Split(input)) != []
    ensures TrimmedIndent(input) == Ok(Join(Dedent(Split(input))))
    ensures TrimmedIndent(Join(Dedent(Split(input)))) == TrimmedIndent(input)
  {
    var lines := Split(input);
    var out := Join(Dedent(lines));
    TrimmedIndentKept(input);
    DedentJoinFixed(lines);
    TrimmedIndentKept(out);
  }

  /** Allowed input that keeps some line trims to the kept lines joined by LF. */
  lemma TrimmedIndentKept(input: string)
    requires AllAllowed(input) && Dedent(Split(input)) != []
    ensures TrimmedIndent(input) == Ok(Join(Dedent(Split(input))))
  {
    var kept := Dedent(Split(input));
    assert CheckAscii(input) == Ok(input);
    DedentAllowed(Split(input));
    JoinAllowed(kept);
  }

  /** Joining the kept lines and splitting them again keeps the same lines, and those
      are already trimmed. */
  lemma DedentJoinFixed(lines: seq<string>)
    requires Dedent(lines) != []
    requires forall i | 0 <= i < |lines| :: |lines[i]| < IntMax && '\n' !in lines[i]
    ensures Dedent(Split(Join(Dedent(lines)))) == Dedent(lines)
  {
    var kept := Dedent(lines);
    DedentShape(lines);
    DedentNoNewline(lines);
    SplitJoin(kept);
    DedentFixed(kept);
  }

  /** `trimIndent`: the index loops of the source, one helper per loop group. */
  method TrimIndent(input: string) returns (r: Outcome)
    ensures r == TrimmedIndent(input)
  {
    var checked :- EnsureAscii(input);
    var lines := Split(checked);
    var start, stop := KeptRange(lines);
    if start >= stop {
      return Ok("");
    }
    var indent := CommonIndent(lines, start, stop);
    if indent == IntMax {
      indent := 0;
    }
    var sb := JoinCut(lines, start, stop, indent);
    assert sb == Join(Dedent(lines));
    DedentAllowed(lines);
    JoinAllowed(Dedent(lines));
    r := EnsureAscii(sb);
  }

  /** The first two loops of `trimIndent`: `start` moves past the leading blank lines,
      then `stop` (one past Java's `end`) back over the trailing ones. */
  method KeptRange(lines: seq<string>) returns (start: nat, stop: nat)
    ensures start == SkipBlankFront(lines, 0) && stop == SkipBlankBack(lines, start, |lines|)
  {
    start := 0;
    stop := |lines|;
    while start < stop
      invariant start <= stop == |lines|
      invariant SkipBlankFront(lines, start) == SkipBlankFront(lines, 0)
    {
      BlankIsTrimEmpty(lines[start]);
      if JavaTrim(lines[start]) != [] {
        break;
      }
      start := start + 1;
    }
    while stop > start
      invariant start <= stop <= |lines|
      invariant SkipBlankBack(lines, start, stop) == SkipBlankBack(lines, start, |lines|)
    {
      BlankIsTrimEmpty(lines[stop - 1]);
      if JavaTrim(lines[stop - 1]) != [] {
        break;
      }
      stop := stop - 1;
    }
  }

  /** The third loop of `trimIndent`: the running minimum of the leading blanks of the
      non-blank lines, starting from `Integer.MAX_VALUE`. */
  method CommonIndent(lines: seq<string>, start: nat, stop: nat) returns (indent: nat)
    requires start <= stop <= |lines|
    ensures indent == MinIndent(lines, start, stop, IntMax)
  {
    indent := IntMax;
    for i := start to stop
      invariant MinIndent(lines, i, stop, indent) == MinIndent(lines, start, stop, IntMax)
    {
      var line := lines[i];
      BlankIsTrimEmpty(line);
      if JavaTrim(line) == [] {
        continue;
      }
      var count := LeadingCount(line);
      indent := Min(indent, count);
    }
  }

  /** The inner loop of the third: the spaces and tabs a line starts with. */
  method LeadingCount(line: string) returns (count: nat)
    ensures count == LeadingBlanks(line)
  {
    count := 0;
    while count < |line| && (line[count] == ' ' || line[count] == '\t')
      invariant count <= |line| && LeadingFrom(line, count) == LeadingFrom(line, 0)
    {
      count := count + 1;
    }
  }

  /** The last loop of `trimIndent`: the kept lines, each cut, joined with LF. */
  method JoinCut(lines: seq<string>, start: nat, stop: nat, indent: nat) returns (sb: string)
    requires start <= stop <= |lines|
    ensures sb == Join(CutLines(lines, start, stop, indent))
  {
    sb := "";
    for i := start to stop
      invariant sb == Join(CutLines(lines, start, i, indent))
    {
      if i > start {
        sb := sb + "\n";
      }
      var line := lines[i];
      var cut := Min(indent, |line|);
      sb := sb + line[cut..];
      assert CutLines(lines, start, i + 1, indent)[..i - start] == CutLines(lines, start, i, indent);
    }
  }

  /** A call `Builtins.<methodName>(args...)` as the generated code writes it: the
      outcome of the public method of that name taking that many strings, or nothing
      when the class declares no such method (the generated source then does not
      compile). The one-argument `constValue` is the only `constValue` there is. */
  function Invoke(methodName: string, args: seq<string>): (r: Wrappers.Option<Outcome>)
    ensures r.Some? ==> 1 <= |args| <= 3
  {
    if |args| == 1 then
      if methodName == "id" then Wrappers.Some(Id(args[0]))
      else if methodName == "upper" then Wrappers.Some(Upper(args[0]))
      else if methodName == "lower" then Wrappers.Some(Lower(args[0]))
      else if methodName == "trim" then Wrappers.Some(Trim(args[0]))
      else if methodName == "trimIndent" then Wrappers.Some(TrimmedIndent(args[0]))
      else if methodName == "constValue" then Wrappers.Some(ConstValue(args[0]))
      else Wrappers.None
    else if |args| == 2 then
      if methodName == "append" then Wrappers.Some(Append(args[0], args[1]))
      else if methodName == "prepend" then Wrappers.Some(Prepend(args[0], args[1]))
      else if methodName == "indent" then Wrappers.Some(Indented(args[0], args[1]))
      else Wrappers.None
    else if |args| == 3 then
      if methodName == "replace" then Wrappers.Some(Replace(args[0], args[1], args[2]))
      else if methodName == "wrap" then Wrappers.Some(Wrap(args[0], args[1], args[2]))
      else Wrappers.None
    else Wrappers.None
  }

  /** The two-argument `constValue` the compiler's calls need: the value flowing in is
      dropped and the literal, checked, replaces it. */
  function ConstValueOver(input: string, value: string): (r: Outcome)
    ensures r.Ok? <==> AllAllowed(value)
    ensures r.Ok? ==> r.value == value
  {
    ConstValue(value)
  }

  /** The runtime class with the two-argument `constValue` added beside the other. */
  function InvokeCorrected(methodName: string, args: seq<string>): (r: Wrappers.Option<Outcome>)
    ensures r.Some? ==> 1 <= |args| <= 3
    ensures methodName != "constValue" || |args| != 2 ==> r == Invoke(methodName, args)
  {
    if methodName == "constValue" && |args| == 2 then Wrappers.Some(ConstValueOver(args[0], args[1]))
    else Invoke(methodName, args)
  }
}
