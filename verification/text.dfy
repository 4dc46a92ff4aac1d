/** Character classes and decimal rendering shared by the lexer, the code builder and
    the runtime library. */
module Text {

  /** The characters a string literal or a runtime value may contain: tab, LF, CR and
      printable ASCII 0x20..0x7E. */
  predicate AsciiAllowed(c: char) {
    c == '\t' || c == '\n' || c == '\r' || (' ' <= c <= '~')
  }

  predicate AllAllowed(s: string) {
    forall i | 0 <= i < |s| :: AsciiAllowed(s[i])
  }

  /** An allowed string with one more allowed character is allowed. */
  lemma AppendAllowed(s: string, c: char)
    requires AllAllowed(s) && AsciiAllowed(c)
    ensures AllAllowed(s + [c])
  {
    forall i | 0 <= i < |s| + 1 ensures AsciiAllowed((s + [c])[i]) {
      if i < |s| {
        assert (s + [c])[i] == s[i];
      }
    }
  }

  lemma AppendAssoc(a: string, b: string, c: string)
    ensures (a + b) + c == a + (b + c)
  {
  }

  /** Number of LF characters in `s`. */
  function CountNewlines(s: string): nat {
    if s == [] then 0 else (if s[0] == '\n' then 1 else 0) + CountNewlines(s[1..])
  }

  lemma {:induction false} CountNewlinesAppend(a: string, b: string)
    ensures CountNewlines(a + b) == CountNewlines(a) + CountNewlines(b)
  {
    if a != [] {
      assert (a + b)[1..] == a[1..] + b;
      CountNewlinesAppend(a[1..], b);
    } else {
      assert a + b == b;
    }
  }

  function DigitChar(d: nat): (c: char)
    requires d < 10
    ensures '0' <= c <= '9'
  {
    (('0' as int) + d) as char
  }

  /** Decimal rendering of a natural number, as Java's string concatenation writes an `int`. */
  function NatToString(n: nat): (s: string)
    ensures 1 <= |s|
    ensures n < 10 <==> |s| == 1
    ensures forall i | 0 <= i < |s| :: '0' <= s[i] <= '9'
  {
    if n < 10 then [DigitChar(n)] else NatToString(n / 10) + [DigitChar(n % 10)]
  }

  /** Distinct numbers render to distinct strings. */
  lemma {:induction false} NatToStringInjective(n: nat, m: nat)
    requires NatToString(n) == NatToString(m)
    ensures n == m
  {
    var s := NatToString(n);
    if n >= 10 && m >= 10 {
      assert s[|s| - 1] == DigitChar(n % 10) == DigitChar(m % 10);
      assert NatToString(n / 10) == s[..|s| - 1] == NatToString(m / 10);
      NatToStringInjective(n / 10, m / 10);
    }
  }

  /** Lines joined by LF; the last line is written last, as the loops of `indent` and
      `trimIndent` do. */
  function Join(lines: seq<string>): string {
    if |lines| == 0 then ""
    else if |lines| == 1 then lines[0]
    else Join(lines[..|lines| - 1]) + "\n" + lines[|lines| - 1]
  }

  /** `split("\\n", -1)`: the pieces between LFs, the empty ones at either end kept. */
  function Split(s: string): (r: seq<string>)
    ensures |r| == CountNewlines(s) + 1
    ensures forall i | 0 <= i < |r| :: '\n' !in r[i] && |r[i]| <= |s|
    ensures AllAllowed(s) ==> forall i | 0 <= i < |r| :: AllAllowed(r[i])
    ensures Join(r) == s
  {
    if s == [] then [""]
    else
      var rest := Split(s[1..]);
      SplitStep(s, rest);
      if s[0] == '\n' then [""] + rest else [[s[0]] + rest[0]] + rest[1..]
  }

  /** The step of `Split`: the lines of `s[1..]` become those of `s` by a new empty
      first line (an LF) or by one more character at the front of the first line. */
  lemma SplitStep(s: string, rest: seq<string>)
    requires s != []
    requires |rest| == CountNewlines(s[1..]) + 1
    requires forall i | 0 <= i < |rest| :: '\n' !in rest[i] && |rest[i]| <= |s[1..]|
    requires AllAllowed(s[1..]) ==> forall i | 0 <= i < |rest| :: AllAllowed(rest[i])
    requires Join(rest) == s[1..]
    ensures var r := if s[0] == '\n' then [""] + rest else [[s[0]] + rest[0]] + rest[1..];
      && |r| == CountNewlines(s) + 1
      && (forall i | 0 <= i < |r| :: '\n' !in r[i] && |r[i]| <= |s|)
      && (AllAllowed(s) ==> forall i | 0 <= i < |r| :: AllAllowed(r[i]))
      && Join(r) == s
  {
    if s[0] == '\n' {
      JoinEmptyFirst(rest);
      assert s == "\n" + s[1..];
    } else {
      JoinExtendFirst(s[0], rest);
      assert s == [s[0]] + s[1..];
      var r := [[s[0]] + rest[0]] + rest[1..];
      assert forall i | 1 <= i < |r| :: r[i] == rest[i];
      if AllAllowed(s) {
        assert AllAllowed(s[1..]) by {
          forall i | 0 <= i < |s[1..]| ensures AsciiAllowed(s[1..][i]) {
            assert s[1..][i] == s[i + 1];
          }
        }
        assert AllAllowed(r[0]) by {
          forall i | 0 <= i < |r[0]| ensures AsciiAllowed(r[0][i]) {
            if i > 0 {
              assert r[0][i] == rest[0][i - 1];
            }
          }
        }
      }
    }
  }

  /** One more character at the front of the first line is one more character at the
      front of the joined text. */
  lemma {:induction false} JoinExtendFirst(c: char, lines: seq<string>)
    requires lines != []
    ensures Join([[c] + lines[0]] + lines[1..]) == [c] + Join(lines)
    decreases |lines|
  {
    var extended := [[c] + lines[0]] + lines[1..];
    var n := |lines|;
    if n > 1 {
      var init := lines[..n - 1];
      assert extended[..n - 1] == [[c] + init[0]] + init[1..];
      JoinExtendFirst(c, init);
      assert Join(extended) == Join(extended[..n - 1]) + "\n" + extended[n - 1];
      assert Join(lines) == Join(init) + "\n" + lines[n - 1];
    }
  }

  /** An empty first line is an LF at the front of the joined text. */
  lemma {:induction false} JoinEmptyFirst(lines: seq<string>)
    requires lines != []
    ensures Join([""] + lines) == "\n" + Join(lines)
    decreases |lines|
  {
    var extended := [""] + lines;
    var n := |lines|;
    if n > 1 {
      var init := lines[..n - 1];
      assert extended[..n] == [""] + init;
      JoinEmptyFirst(init);
      assert Join(extended) == Join(extended[..n]) + "\n" + extended[n];
      assert Join(lines) == Join(init) + "\n" + lines[n - 1];
    } else {
      assert extended[..1] == [""];
    }
  }

  /** Splitting joined lines that contain no LF gives the lines back. */
  lemma {:induction false} SplitJoin(lines: seq<string>)
    requires |lines| >= 1 && forall i | 0 <= i < |lines| :: '\n' !in lines[i]
    ensures Split(Join(lines)) == lines
    decreases |lines|, |lines[0]|
  {
    var rest := lines[1..];
    if |lines| == 1 {
      SplitLine(lines[0]);
    } else if lines[0] == [] {
      assert lines == [""] + rest;
      JoinEmptyFirst(rest);
      var joined := Join(lines);
      assert joined[0] == '\n' && joined[1..] == Join(rest);
      SplitJoin(rest);
    } else {
      var c := lines[0][0];
      var shorter := [lines[0][1..]] + rest;
      assert [c] + shorter[0] == lines[0];
      assert shorter[1..] == rest;
      assert lines == [[c] + shorter[0]] + shorter[1..];
      JoinExtendFirst(c, shorter);
      var joined := Join(lines);
      assert joined[0] == c && joined[1..] == Join(shorter);
      assert c != '\n';
      SplitJoin(shorter);
    }
  }

  lemma {:induction false} SplitLine(line: string)
    requires '\n' !in line
    ensures Split(line) == [line]
    decreases |line|
  {
    if line != [] {
      SplitLine(line[1..]);
      assert line == [line[0]] + line[1..];
    }
  }

  /** Joining allowed lines gives allowed text: the LF between them is allowed. */
  lemma {:induction false} JoinAllowed(lines: seq<string>)
    requires forall i | 0 <= i < |lines| :: AllAllowed(lines[i])
    ensures AllAllowed(Join(lines))
    decreases |lines|
  {
    if |lines| > 1 {
      JoinAllowed(lines[..|lines| - 1]);
    }
  }

  /** Joining lines that hold no LF: splitting the text gives them back, so it has one
      LF fewer than lines. */
  lemma JoinCountsLines(lines: seq<string>)
    requires |lines| >= 1 && forall i | 0 <= i < |lines| :: '\n' !in lines[i]
    ensures CountNewlines(Join(lines)) + 1 == |lines|
  {
    SplitJoin(lines);
  }
}
