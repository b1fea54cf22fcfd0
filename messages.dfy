/**
 * The text the plugin writes to a project's log: the resolution-failure
 * report and the two line prefixes used by the handler and by the plugin.
 */
module Messages {
  import opened Wrappers

  const Tag: string := "[typescript-pnp-plugin] "

  /** A line written through `ProjectHandler.log`: tag, project name, message. */
  function ProjectLine(projectName: string, message: string): (line: string)
  {
    Tag + projectName + ": " + message
  }

  /** A line written through `Plugin.log`: tag and message only. */
  function PluginLine(message: string): (line: string)
  {
    Tag + message
  }

  /** The value of `pnpPath || 'no'`: an undefined or empty path shows as "no". */
  function PnpLabel(pnpPath: Option<string>): (shown: string)
  {
    if pnpPath.Some? && pnpPath.value != "" then pnpPath.value else "no"
  }

  /** `lines.join(sep)` for a one-character separator. */
  function Join(lines: seq<string>, sep: char): (joined: string)
  {
    if |lines| == 0 then ""
    else if |lines| == 1 then lines[0]
    else lines[0] + [sep] + Join(lines[1..], sep)
  }

  /**
   * `s.split(sep)` for a one-character separator: the pieces between the
   * separators, so there is always at least one piece.
   */
  function Split(s: string, sep: char): (pieces: seq<string>)
    ensures |pieces| >= 1
  {
    if |s| == 0 then [""]
    else if s[0] == sep then [""] + Split(s[1..], sep)
    else
      var rest := Split(s[1..], sep);
      [[s[0]] + rest[0]] + rest[1..]
  }

  /** The report logged when a resolution has no resolved value; `resultText` is `JSON.stringify(result)`. */
  function FormatResolutionFailedMessage(kind: string, pnpPath: Option<string>, containingFile: string,
                                         name: string, resultText: string): (message: string)
  {
    Join([kind + " resolution request failed",
          "    PnP: " + PnpLabel(pnpPath),
          "    From: " + containingFile,
          "    Request: " + name,
          "    Result: " + resultText], '\n')
  }

  lemma {:induction false} SplitWithoutSeparator(s: string, sep: char)
    requires sep !in s
    ensures Split(s, sep) == [s]
  {
    if |s| > 0 {
      assert sep !in s[1..];
      SplitWithoutSeparator(s[1..], sep);
      assert [s[0]] + s[1..] == s;
    }
  }

  lemma {:induction false} SplitAfterFirstSeparator(a: string, sep: char, b: string)
    requires sep !in a
    ensures Split(a + [sep] + b, sep) == [a] + Split(b, sep)
  {
    var s := a + [sep] + b;
    if |a| == 0 {
      assert s == [sep] + b;
      assert s[1..] == b;
    } else {
      assert s[0] == a[0];
      assert s[1..] == a[1..] + [sep] + b;
      SplitAfterFirstSeparator(a[1..], sep, b);
      assert [a[0]] + a[1..] == a;
    }
  }

  /** Splitting a join at the separator gives back the lines, when no line holds the separator. */
  lemma {:induction false} SplitJoin(lines: seq<string>, sep: char)
    requires |lines| >= 1
    requires forall i :: 0 <= i < |lines| ==> sep !in lines[i]
    ensures Split(Join(lines, sep), sep) == lines
  {
    if |lines| == 1 {
      SplitWithoutSeparator(lines[0], sep);
    } else {
      SplitAfterFirstSeparator(lines[0], sep, Join(lines[1..], sep));
      SplitJoin(lines[1..], sep);
      assert [lines[0]] + lines[1..] == lines;
    }
  }

  /**
   * The failure report is exactly five lines, in this order, and the PnP
   * line shows "no" for an undefined or empty path.
   */
  lemma FailureMessageLines(kind: string, pnpPath: Option<string>, containingFile: string,
                            name: string, resultText: string)
    requires '\n' !in kind && '\n' !in containingFile && '\n' !in name && '\n' !in resultText
    requires pnpPath.Some? ==> '\n' !in pnpPath.value
    ensures var lines := Split(FormatResolutionFailedMessage(kind, pnpPath, containingFile, name, resultText), '\n');
      |lines| == 5 &&
      lines[0] == kind + " resolution request failed" &&
      lines[1] == "    PnP: " + (if pnpPath.None? || pnpPath.value == "" then "no" else pnpPath.value) &&
      lines[2] == "    From: " + containingFile &&
      lines[3] == "    Request: " + name &&
      lines[4] == "    Result: " + resultText
  {
    var lines := [kind + " resolution request failed",
                  "    PnP: " + PnpLabel(pnpPath),
                  "    From: " + containingFile,
                  "    Request: " + name,
                  "    Result: " + resultText];
    assert '\n' !in PnpLabel(pnpPath);
    SplitJoin(lines, '\n');
  }
}
