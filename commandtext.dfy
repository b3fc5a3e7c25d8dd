/**
 * Rewriting of command text before it runs: clean-up of a generated command
 * (`sanitizeIACommand`), the colour-flag insertion for plain shell input
 * (`shouldColorOutput` and the rewrite in the main loop), and the cap on the
 * stderr text handed to error analysis (`handleDebugCommand`).
 */
module CommandText {
  import opened GoStrings

  const Fence := "```"
  const Tick := "`"

  /** Removes at most one leading shell-language tag line, tried in this order. */
  function StripLanguageTag(s: string): (r: string)
    ensures r == s || s == "bash\n" + r || s == "sh\n" + r || s == "shell\n" + r
    ensures HasPrefix(s, "bash\n") ==> s == "bash\n" + r
    ensures !HasPrefix(s, "bash\n") && !HasPrefix(s, "sh\n") && !HasPrefix(s, "shell\n") ==> r == s
  {
    if HasPrefix(s, "bash\n") then TrimPrefix(s, "bash\n")
    else if HasPrefix(s, "sh\n") then TrimPrefix(s, "sh\n")
    else if HasPrefix(s, "shell\n") then TrimPrefix(s, "shell\n")
    else s
  }

  predicate FencedBlock(t: string) {
    HasPrefix(t, Fence) && HasSuffix(t, Fence)
  }

  predicate TickQuoted(t: string) {
    HasPrefix(t, Tick) && HasSuffix(t, Tick)
  }

  /** `sanitizeIACommand`: the command text the generator returned, cleaned for `bash -c`. */
  function Sanitize(raw: string): (r: string)
    ensures Trimmed(r)
  {
    var cmd := TrimSpace(raw);
    if FencedBlock(cmd) then
      TrimSpace(StripLanguageTag(TrimSuffix(TrimPrefix(cmd, Fence), Fence)))
    else if TickQuoted(cmd) then
      TrimSpace(TrimSuffix(TrimPrefix(cmd, Tick), Tick))
    else
      cmd
  }

  /** A fenced block of at least two fences loses both fences and at most one tag. */
  lemma SanitizeFenced(raw: string)
    requires var t := TrimSpace(raw); FencedBlock(t) && |t| >= 6
    ensures var t := TrimSpace(raw); Sanitize(raw) == TrimSpace(StripLanguageTag(t[3..|t| - 3]))
  {
    var t := TrimSpace(raw);
    var inner := TrimPrefix(t, Fence);
    assert inner == t[3..];
    assert HasSuffix(inner, Fence) by {
      assert inner[|inner| - 3..] == t[|t| - 3..];
    }
    assert TrimSuffix(inner, Fence) == inner[..|inner| - 3] == t[3..|t| - 3];
  }

  /** A single-backtick pair (not a fenced block) loses that pair. */
  lemma SanitizeTicked(raw: string)
    requires var t := TrimSpace(raw); !FencedBlock(t) && TickQuoted(t) && |t| >= 2
    ensures var t := TrimSpace(raw); Sanitize(raw) == TrimSpace(t[1..|t| - 1])
  {
    var t := TrimSpace(raw);
    var inner := TrimPrefix(t, Tick);
    assert inner == t[1..];
    assert HasSuffix(inner, Tick) by {
      assert inner[|inner| - 1..] == t[|t| - 1..];
    }
    assert TrimSuffix(inner, Tick) == inner[..|inner| - 1] == t[1..|t| - 1];
  }

  /**
   * Fences that overlap: a trimmed reply of three to five characters that
   * starts and ends with a fence is all backticks, and only the first fence
   * is removed (the remainder is too short to end with one), so three to
   * five backticks clean to zero to two. A lone backtick cleans to nothing.
   */
  lemma SanitizeOverlappingFences(raw: string)
    requires var t := TrimSpace(raw); (FencedBlock(t) && |t| < 6) || t == Tick
    ensures var t := TrimSpace(raw); Sanitize(raw) == t[if t == Tick then 1 else 3..]
    ensures forall i :: 0 <= i < |Sanitize(raw)| ==> Sanitize(raw)[i] == '`'
    ensures |Sanitize(raw)| == |TrimSpace(raw)| - (if TrimSpace(raw) == Tick then 1 else 3)
  {
    var t := TrimSpace(raw);
    if t != Tick {
      assert t[..3] == Fence && t[|t| - 3..] == Fence;
      assert forall i :: 0 <= i < |t| ==> t[i] == '`' by {
        forall i | 0 <= i < |t|
          ensures t[i] == '`'
        {
          if i < 3 {
            assert t[..3][i] == t[i];
          } else {
            assert t[|t| - 3..][i - (|t| - 3)] == t[i];
          }
        }
      }
      var inner := TrimPrefix(t, Fence);
      assert inner == t[3..];
      assert !HasSuffix(inner, Fence);
      assert StripLanguageTag(inner) == inner by {
        assert !HasPrefix(inner, "bash\n") && !HasPrefix(inner, "sh\n") && !HasPrefix(inner, "shell\n");
      }
      TrimSpaceOfTrimmed(inner);
    } else {
      assert !FencedBlock(t) && TickQuoted(t);
      assert TrimPrefix(t, Tick) == [];
    }
  }

  /**
   * Text that is neither fenced nor quoted, surrounded by any white space, comes
   * back exactly, interior line breaks included.
   */
  lemma SanitizePlain(a: string, c: string, b: string)
    requires AllSpace(a) && AllSpace(b) && Trimmed(c)
    requires !FencedBlock(c) && !TickQuoted(c)
    ensures Sanitize(a + c + b) == c
  {
    TrimSpacePadded(a, c, b);
  }

  /** Any text between two fences comes out with at most its tag stripped, trimmed. */
  lemma SanitizeBetweenFences(body: string)
    ensures Sanitize(Fence + body + Fence) == TrimSpace(StripLanguageTag(body))
  {
    var w := Fence + body + Fence;
    assert w[0] == '`' && w[|w| - 1] == '`';
    TrimSpaceOfTrimmed(w);
    assert w[..3] == Fence;
    assert w[|w| - 3..] == Fence;
    SanitizeFenced(w);
    assert w[3..|w| - 3] == body;
  }

  /** Each of the three tags is stripped, and only the tag. */
  lemma StripEachTag(tag: string, rest: string)
    requires tag in ["bash", "sh", "shell"]
    ensures StripLanguageTag(tag + "\n" + rest) == rest
  {
    var body := tag + "\n" + rest;
    if tag == "bash" {
      assert body[..5] == "bash\n";
    } else if tag == "sh" {
      assert body[1] == 'h' && body[..3] == "sh\n";
    } else {
      assert body[2] == 'e' && body[..6] == "shell\n";
    }
  }

  lemma NoTagAfterNewline(rest: string)
    ensures StripLanguageTag("\n" + rest) == "\n" + rest
  {
    var body := "\n" + rest;
    assert body[0] == '\n';
    assert !HasPrefix(body, "bash\n") && !HasPrefix(body, "sh\n") && !HasPrefix(body, "shell\n");
  }

  /** The text inside a fence built around `c` comes out as `c`. */
  lemma FencedBodyCleans(tag: string, c: string)
    requires tag in ["", "bash", "sh", "shell"]
    requires Trimmed(c)
    ensures TrimSpace(StripLanguageTag(tag + "\n" + c + "\n")) == c
  {
    if tag == "" {
      assert "" + "\n" + c + "\n" == "\n" + (c + "\n") == "\n" + c + "\n";
      NoTagAfterNewline(c + "\n");
      TrimSpacePadded("\n", c, "\n");
    } else {
      assert tag + "\n" + c + "\n" == tag + "\n" + (c + "\n");
      StripEachTag(tag, c + "\n");
      TrimSpacePadded("", c, "\n");
      assert "" + c + "\n" == c + "\n";
    }
  }

  /** Wrapping a trimmed command in a fenced block, with or without a tag, round-trips. */
  lemma SanitizeFenceRoundTrip(tag: string, c: string)
    requires tag in ["", "bash", "sh", "shell"]
    requires Trimmed(c)
    ensures Sanitize(Fence + tag + "\n" + c + "\n" + Fence) == c
  {
    var body := tag + "\n" + c + "\n";
    assert Fence + tag + "\n" + c + "\n" + Fence == Fence + body + Fence;
    SanitizeBetweenFences(body);
    FencedBodyCleans(tag, c);
  }

  /** Wrapping a trimmed command without backticks in one backtick pair round-trips. */
  lemma SanitizeTickRoundTrip(c: string)
    requires Trimmed(c)
    requires forall i :: 0 <= i < |c| ==> c[i] != '`'
    ensures Sanitize(Tick + c + Tick) == c
  {
    var w := Tick + c + Tick;
    assert w[0] == '`' && w[|w| - 1] == '`';
    TrimSpaceOfTrimmed(w);
    assert !FencedBlock(w) by {
      if |w| >= 3 {
        assert w[1] == c[0];
      }
    }
    assert TickQuoted(w);
    assert TrimSuffix(TrimPrefix(w, Tick), Tick) == c;
    TrimSpaceOfTrimmed(c);
  }

  // ----- colour flag -----

  const ColorCommands: seq<string> := ["ls", "grep", "diff", "git", "kubectl", "docker", "tree"]
  const ColorFlag := " --color=always"

  /** The scan in `shouldColorOutput`: some listed program is `t` itself or `t`'s prefix before a space. */
  predicate AnyColorCommand(t: string, commands: seq<string>)
    decreases |commands|
  {
    |commands| > 0 &&
    (HasPrefix(t, commands[0] + " ") || t == commands[0] || AnyColorCommand(t, commands[1..]))
  }

  /** `shouldColorOutput`. */
  predicate ShouldColorOutput(cmd: string) {
    var t := TrimSpace(cmd);
    t != "" && AnyColorCommand(t, ColorCommands)
  }

  /** The text before the first space (all of it when there is none). */
  function FirstWord(s: string): (w: string)
    ensures HasPrefix(s, w) && forall i :: 0 <= i < |w| ==> w[i] != ' '
    ensures |w| < |s| ==> s[|w|] == ' '
  {
    var i := Index(s, ' ');
    if i == -1 then s else s[..i]
  }

  predicate SingleWord(c: string) {
    |c| > 0 && forall i :: 0 <= i < |c| ==> c[i] != ' '
  }

  /** For a space-free name, "is the word or starts with the word and a space" means "is the first word". */
  lemma MatchIsFirstWord(t: string, c: string)
    requires SingleWord(c)
    ensures (HasPrefix(t, c + " ") || t == c) <==> FirstWord(t) == c
  {
    var w := FirstWord(t);
    if HasPrefix(t, c + " ") {
      assert t[|c|] == ' ';
      assert forall j :: 0 <= j < |c| ==> t[j] == c[j];
      assert Index(t, ' ') == |c|;
    }
    if w == c && |w| < |t| {
      assert t[..|w| + 1] == w + " ";
    }
  }

  lemma {:induction false} AnyColorCommandByFirstWord(t: string, commands: seq<string>)
    requires forall k :: 0 <= k < |commands| ==> SingleWord(commands[k])
    ensures AnyColorCommand(t, commands) <==> FirstWord(t) in commands
    decreases |commands|
  {
    if |commands| > 0 {
      MatchIsFirstWord(t, commands[0]);
      AnyColorCommandByFirstWord(t, commands[1..]);
      assert commands == [commands[0]] + commands[1..];
    }
  }

  /** The colour decision depends only on the program name, i.e. the first word. */
  lemma ShouldColorByFirstWord(cmd: string)
    ensures ShouldColorOutput(cmd) <==> FirstWord(TrimSpace(cmd)) in ColorCommands
  {
    var t := TrimSpace(cmd);
    assert forall k :: 0 <= k < |ColorCommands| ==> SingleWord(ColorCommands[k]);
    AnyColorCommandByFirstWord(t, ColorCommands);
    if FirstWord(t) in ColorCommands {
      assert |FirstWord(t)| > 0;
    }
  }

  /** The rewrite in the main loop: ` --color=always` right after the first word. */
  function WithColorFlag(input: string): (r: string)
    ensures r == FirstWord(input) + ColorFlag + input[|FirstWord(input)|..]
  {
    var i := Index(input, ' ');
    if i == -1 then input + ColorFlag
    else input[..i] + ColorFlag + input[i..]
  }

  /** What the shell branch actually runs (and records on success). */
  function ColorRewrite(input: string): string {
    if ShouldColorOutput(input) then WithColorFlag(input) else input
  }

  /** The flag goes in after the first word, so the first word is unchanged and removing the flag undoes it. */
  lemma FlagAfterFirstWord(input: string)
    ensures var r := WithColorFlag(input); var w := FirstWord(input);
      FirstWord(r) == w && r[..|w|] + r[|w| + |ColorFlag|..] == input
  {
    var r := WithColorFlag(input);
    var w := FirstWord(input);
    assert r == w + (ColorFlag + input[|w|..]);
    assert r[|w|] == ' ';
    assert forall j :: 0 <= j < |w| ==> r[j] == w[j];
    assert Index(r, ' ') == |w|;
    assert r[..|w|] == w;
    assert r[|w| + |ColorFlag|..] == input[|w|..];
    assert w + input[|w|..] == input;
  }

  /** The flag neither starts nor ends the rewritten text of a non-empty trimmed command. */
  lemma FlagKeepsTrimmed(input: string)
    requires Trimmed(input) && |input| > 0
    ensures Trimmed(WithColorFlag(input))
  {
    var r := WithColorFlag(input);
    var w := FirstWord(input);
    assert r == w + (ColorFlag + input[|w|..]);
    assert |w| == |input| || input[|w|] == ' ';
    assert |w| > 0;
    assert r[0] == input[0];
    assert r[|r| - 1] == if |w| == |input| then 's' else input[|input| - 1];
  }

  /**
   * The rewrite keeps the program name and only inserts the flag: removing the
   * flag gives back the input, and the program is still one that gets colour.
   */
  lemma ColorRewriteKeepsCommand(input: string)
    requires Trimmed(input) && ShouldColorOutput(input)
    ensures var r := ColorRewrite(input); var w := FirstWord(input);
      FirstWord(r) == w && r[..|w|] + r[|w| + |ColorFlag|..] == input
      && ShouldColorOutput(r)
  {
    var r := WithColorFlag(input);
    FlagAfterFirstWord(input);
    TrimSpaceOfTrimmed(input);
    ShouldColorByFirstWord(input);
    FlagKeepsTrimmed(input);
    TrimSpaceOfTrimmed(r);
    ShouldColorByFirstWord(r);
  }

  // ----- stderr cap -----

  const StderrLimit := 2048

  function AsciiBytes(s: string): (r: seq<byte>)
    requires forall i :: 0 <= i < |s| ==> s[i] as int < 128
    ensures |r| == |s|
  {
    seq(|s|, i requires 0 <= i < |s| => s[i] as int as byte)
  }

  const TruncationNote: seq<byte> := AsciiBytes("\n... (Error truncado)")

  /**
   * `handleDebugCommand`'s cap: stderr of at most 2048 bytes is passed on
   * whole; longer stderr keeps exactly its first 2048 bytes, followed by the
   * note and nothing else.
   */
  function TruncateStderr(out: seq<byte>): (r: seq<byte>)
    ensures |r| <= StderrLimit + |TruncationNote|
    ensures |out| <= StderrLimit ==> r == out
    ensures |out| > StderrLimit ==>
      |r| == StderrLimit + |TruncationNote| && r[..StderrLimit] == out[..StderrLimit]
      && r[StderrLimit..] == TruncationNote
  {
    if |out| > StderrLimit then out[..StderrLimit] + TruncationNote else out
  }
}
