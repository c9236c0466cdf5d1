/**
 The summary a run leaves in the audit log, and the filter that decides which
 of its tokens the AI may read back.
 */
module AuditMessage {

  /** Space-separated tokens: the reading of `strings.Split` and `strings.Join`. */
  function IndexOf(s: string, c: char): (k: nat)
    ensures k <= |s| && c !in s[..k]
    ensures k < |s| ==> s[k] == c
  {
    if s == "" || s[0] == c then 0 else
      var k := IndexOf(s[1..], c) + 1;
      assert s[..k] == [s[0]] + s[1..][..k - 1];
      k
  }

  function Split(s: string): (parts: seq<string>)
    ensures |parts| > 0
    decreases |s|
  {
    var k := IndexOf(s, ' ');
    if k == |s| then [s] else [s[..k]] + Split(s[k + 1..])
  }

  function Join(parts: seq<string>): string {
    if |parts| == 0 then ""
    else if |parts| == 1 then parts[0]
    else parts[0] + " " + Join(parts[1..])
  }

  ghost predicate SpaceFree(parts: seq<string>) {
    forall i :: 0 <= i < |parts| ==> ' ' !in parts[i]
  }

  lemma {:induction false} FirstIs(a: string, c: char, b: string)
    requires c !in a
    ensures IndexOf(a + [c] + b, c) == |a|
  {
    if a != "" {
      FirstIs(a[1..], c, b);
      assert (a + [c] + b)[1..] == a[1..] + [c] + b;
      assert a[0] in a;
    }
  }

  lemma FirstSpace(a: string, b: string)
    requires ' ' !in a
    ensures IndexOf(a + " " + b, ' ') == |a|
    ensures IndexOf(a, ' ') == |a|
  {
    FirstIs(a, ' ', b);
  }

  lemma {:induction false} SplitSpaceFree(s: string)
    ensures SpaceFree(Split(s))
    decreases |s|
  {
    var k := IndexOf(s, ' ');
    if k < |s| {
      SplitSpaceFree(s[k + 1..]);
    } else {
      assert s[..k] == s;
    }
  }

  lemma JoinCons(first: string, rest: seq<string>)
    requires |rest| > 0
    ensures Join([first] + rest) == first + " " + Join(rest)
  {
    assert ([first] + rest)[1..] == rest;
  }

  lemma {:induction false} JoinOfSplit(s: string)
    ensures Join(Split(s)) == s
    decreases |s|
  {
    hide Join, Split, IndexOf;
    SplitUnfolds(s);
    var k := IndexOf(s, ' ');
    if k < |s| {
      JoinOfSplit(s[k + 1..]);
      JoinCons(s[..k], Split(s[k + 1..]));
      CutAt(s, k);
    } else {
      JoinOne(s);
    }
  }

  lemma SplitUnfolds(s: string)
    ensures var k := IndexOf(s, ' ');
      Split(s) == if k == |s| then [s] else [s[..k]] + Split(s[k + 1..])
  {
    hide IndexOf;
  }

  /** A space-free first token comes off the front. */
  lemma SplitFirst(a: string, rest: string)
    requires ' ' !in a
    ensures Split(a) == [a] && Split(a + " " + rest) == [a] + Split(rest)
  {
    hide Split, IndexOf;
    var s := a + " " + rest;
    FirstSpace(a, rest);
    SplitUnfolds(a);
    SplitUnfolds(s);
    assert s[..|a|] == a && s[|a| + 1..] == rest;
  }

  lemma JoinUnfolds(parts: seq<string>)
    requires |parts| > 0
    ensures Join(parts) == if |parts| == 1 then parts[0] else parts[0] + " " + Join(parts[1..])
  {
  }

  lemma CutAt(s: string, k: nat)
    requires k < |s| && s[k] == ' '
    ensures s[..k] + " " + s[k + 1..] == s
  {
  }

  lemma JoinOne(part: string)
    ensures Join([part]) == part
  {
  }

  lemma {:induction false} SplitOfJoin(parts: seq<string>)
    requires |parts| > 0 && SpaceFree(parts)
    ensures Split(Join(parts)) == parts
  {
    hide Split, Join, IndexOf;
    JoinUnfolds(parts);
    if |parts| == 1 {
      SplitFirst(parts[0], "");
    } else {
      SplitFirst(parts[0], Join(parts[1..]));
      SplitOfJoin(parts[1..]);
    }
  }

  lemma {:induction false} JoinAppend(a: seq<string>, b: seq<string>)
    requires |a| > 0 && |b| > 0
    ensures Join(a + b) == Join(a) + " " + Join(b)
  {
    assert (a + b)[1..] == a[1..] + b;
    if |a| > 1 {
      JoinAppend(a[1..], b);
    }
  }

  /** A space between two messages puts their tokens side by side. */
  lemma SplitAppend(a: string, b: string)
    ensures Split(a + " " + b) == Split(a) + Split(b)
  {
    JoinOfSplit(a);
    JoinOfSplit(b);
    JoinAppend(Split(a), Split(b));
    SplitSpaceFree(a);
    SplitSpaceFree(b);
    SplitOfJoin(Split(a) + Split(b));
  }

  /**
   What the filter lets through: a token that opens with the one allowlisted
   key and an equals sign, whatever its value.
   */
  const GATE: string := "timed_out="

  predicate Visible(token: string) {
    GATE <= token
  }

  function Kept(tokens: seq<string>): (kept: seq<string>)
    ensures forall i :: 0 <= i < |kept| ==> Visible(kept[i]) && kept[i] in tokens
  {
    if tokens == [] then []
    else
      var n := |tokens| - 1;
      if Visible(tokens[n]) then Kept(tokens[..n]) + [tokens[n]] else Kept(tokens[..n])
  }

  function Filtered(msg: string): string {
    Join(Kept(Split(msg)))
  }

  /** `strings.Cut`: the text before the first separator, and whether there is one. */
  method Cut(s: string, sep: char) returns (before: string, found: bool)
    ensures found <==> sep in s
    ensures sep !in before
    ensures found ==> before + [sep] <= s
    ensures !found ==> before == s
  {
    var k := IndexOf(s, sep);
    assert k == |s| ==> s[..k] == s;
    return s[..k], k < |s|;
  }

  /** A token has one key: the text before its first equals sign. */
  lemma FirstOf(key: string, token: string)
    requires '=' !in key && key + "=" <= token
    ensures key == token[..IndexOf(token, '=')]
  {
    var t := key + "=";
    FirstIs(key, '=', token[|t|..]);
    assert token == t + token[|t|..];
  }

  lemma CutDecides(token: string, key: string)
    requires '=' !in key && key + "=" <= token
    ensures Visible(token) <==> key == "timed_out"
  {
    var t := key + "=";
    if Visible(token) {
      FirstOf(key, token);
      FirstOf("timed_out", token);
    }
  }

  lemma VisibleHasEquals(token: string)
    requires Visible(token)
    ensures '=' in token
  {
    assert token[9] == GATE[9];
  }

  const ALLOWLIST: map<string, bool> := map["timed_out" := true]

  method FilterAuditMessageForAI(msg: string) returns (res: string)
    ensures res == Filtered(msg)
  {
    if msg == "" {
      assert Split(msg) == [""];
      return "";
    }
    var tokens := Split(msg);
    var out: seq<string> := [];
    for i := 0 to |tokens|
      invariant out == Kept(tokens[..i])
    {
      assert tokens[..i + 1][..i] == tokens[..i];
      var token := tokens[i];
      var key, ok := Cut(token, '=');
      if Visible(token) {
        VisibleHasEquals(token);
      }
      if !ok {
        continue;
      }
      CutDecides(token, key);
      if key !in ALLOWLIST || !ALLOWLIST[key] {
        continue;
      }
      out := out + [token];
    }
    assert tokens[..|tokens|] == tokens;
    return Join(out);
  }

  /**
   Exactly the allowlisted tokens survive, in their order: the survivors sit at
   increasing positions, and those are all the visible positions there are.
   */
  ghost predicate Survivors(tokens: seq<string>, kept: seq<string>, at: seq<nat>) {
    && |at| == |kept|
    && (forall k :: 0 <= k < |at| ==> at[k] < |tokens| && tokens[at[k]] == kept[k])
    && (forall j, k :: 0 <= j < k < |at| ==> at[j] < at[k])
    && (forall i :: 0 <= i < |tokens| ==> (Visible(tokens[i]) <==> i in at))
  }

  lemma {:induction false} KeepsExactlyTheAllowlisted(tokens: seq<string>) returns (at: seq<nat>)
    ensures Survivors(tokens, Kept(tokens), at)
  {
    hide Visible;
    if tokens == [] {
      at := [];
      assert Survivors(tokens, Kept(tokens), at);
    } else {
      var n := |tokens| - 1;
      var front := KeepsExactlyTheAllowlisted(tokens[..n]);
      at := if Visible(tokens[n]) then front + [n] else front;
      SurvivorsStep(tokens, Kept(tokens[..n]), front);
    }
  }

  lemma SurvivorsStep(tokens: seq<string>, kept: seq<string>, at: seq<nat>)
    requires |tokens| > 0 && Survivors(tokens[..|tokens| - 1], kept, at)
    ensures Visible(tokens[|tokens| - 1]) ==> Survivors(tokens, kept + [tokens[|tokens| - 1]], at + [|tokens| - 1])
    ensures !Visible(tokens[|tokens| - 1]) ==> Survivors(tokens, kept, at)
  {
    hide Visible;
    var n := |tokens| - 1;
    assert forall i :: 0 <= i < n ==> tokens[..n][i] == tokens[i];
  }

  lemma {:induction false} KeptAppend(a: seq<string>, b: seq<string>)
    ensures Kept(a + b) == Kept(a) + Kept(b)
  {
    if b == [] {
      assert a + b == a;
    } else {
      var n := |b| - 1;
      assert (a + b)[..|a| + n] == a + b[..n];
      KeptAppend(a, b[..n]);
    }
  }

  lemma {:induction false} KeptIsIdempotent(tokens: seq<string>)
    requires forall i :: 0 <= i < |tokens| ==> Visible(tokens[i])
    ensures Kept(tokens) == tokens
  {
    if tokens != [] {
      KeptIsIdempotent(tokens[..|tokens| - 1]);
    }
  }

  /**
   What the AI reads splits back into the surviving tokens; no survivor means
   an empty message and the other way round.
   */
  lemma FilteredTokens(msg: string)
    ensures Filtered(msg) == "" <==> Kept(Split(msg)) == []
    ensures Filtered(msg) != "" ==> Split(Filtered(msg)) == Kept(Split(msg))
  {
    var kept := Kept(Split(msg));
    if kept != [] {
      SplitSpaceFree(msg);
      SplitOfJoin(kept);
      assert Visible(kept[0]);
      assert Join(kept) != "" by {
        assert Split("") == [""];
      }
    }
  }

  lemma FilterIsIdempotent(msg: string)
    ensures Filtered(Filtered(msg)) == Filtered(msg)
  {
    FilteredTokens(msg);
    if Filtered(msg) == "" {
      assert Split("") == [""];
    } else {
      KeptIsIdempotent(Kept(Split(msg)));
    }
  }

  /** Two messages joined by a space are filtered independently of each other. */
  lemma FilterAppend(a: string, b: string)
    ensures Kept(Split(a + " " + b)) == Kept(Split(a)) + Kept(Split(b))
  {
    SplitAppend(a, b);
    KeptAppend(Split(a), Split(b));
  }

  /** `%d` for any integer. */
  function Digits(n: nat): (s: string)
    ensures |s| > 0
    ensures forall i :: 0 <= i < |s| ==> '0' <= s[i] <= '9'
  {
    var d := ['0' + (n % 10) as char];
    if n < 10 then d else Digits(n / 10) + d
  }

  function Decimal(n: int): (s: string)
    ensures ' ' !in s
  {
    if n < 0 then "-" + Digits(-n) else Digits(n)
  }

  /** A duration counts nanoseconds; whole milliseconds are taken toward zero. */
  function Milliseconds(elapsed: int): int {
    if elapsed < 0 then -(-elapsed / 1_000_000) else elapsed / 1_000_000
  }

  /** A duration is rounded toward zero, alike on both sides of it. */
  lemma WholeMilliseconds(elapsed: nat)
    ensures var ms := Milliseconds(elapsed); 0 <= ms * 1_000_000 <= elapsed < (ms + 1) * 1_000_000
    ensures Milliseconds(0 - elapsed) == 0 - Milliseconds(elapsed)
  {
  }

  /** The number that a string of decimal digits stands for, most significant first. */
  predicate AllDigits(s: string) {
    forall i :: 0 <= i < |s| ==> '0' <= s[i] <= '9'
  }

  function ReadDigits(s: string): nat
    requires AllDigits(s)
  {
    if s == "" then 0 else ReadDigits(s[..|s| - 1]) * 10 + (s[|s| - 1] - '0') as nat
  }

  predicate IsNumber(s: string) {
    s != "" && if s[0] == '-' then |s| > 1 && AllDigits(s[1..]) else AllDigits(s)
  }

  function ReadNumber(s: string): int
    requires IsNumber(s)
  {
    if s[0] == '-' then 0 - ReadDigits(s[1..]) else ReadDigits(s)
  }

  lemma {:induction false} DigitsRead(n: nat)
    ensures ReadDigits(Digits(n)) == n
  {
    var s := Digits(n);
    if n >= 10 {
      DigitsRead(n / 10);
      assert s[..|s| - 1] == Digits(n / 10);
    } else {
      assert s[..0] == "";
    }
  }

  /** Every number can be read back from its decimal form. */
  lemma DecimalRead(n: int)
    ensures IsNumber(Decimal(n)) && ReadNumber(Decimal(n)) == n
  {
    hide Digits, ReadDigits;
    if n < 0 {
      DigitsRead(-n);
      assert Decimal(n)[1..] == Digits(-n);
    } else {
      DigitsRead(n);
    }
  }

  method AuditMCPRunMessage(rawExit: int, stdoutTrunc: bool, stderrTrunc: bool, timedOut: bool,
                            elapsed: int, extra: string)
    returns (msg: string)
    ensures msg == RunMessage(rawExit, stdoutTrunc, stderrTrunc, timedOut, elapsed, extra)
  {
    var parts := ["raw_exit=" + Decimal(rawExit), "elapsed_ms=" + Decimal(Milliseconds(elapsed))];
    if stdoutTrunc {
      parts := parts + ["stdout_truncated=true"];
    }
    if stderrTrunc {
      parts := parts + ["stderr_truncated=true"];
    }
    if timedOut {
      parts := parts + ["timed_out=true"];
    }
    assert parts == RunParts(rawExit, stdoutTrunc, stderrTrunc, timedOut, elapsed);
    if extra != "" {
      JoinAppend(parts, [extra]);
      parts := parts + [extra];
    }
    return Join(parts);
  }

  function When(flag: bool, token: string): seq<string> {
    if flag then [token] else []
  }

  function RunParts(rawExit: int, stdoutTrunc: bool, stderrTrunc: bool, timedOut: bool, elapsed: int): seq<string> {
    ["raw_exit=" + Decimal(rawExit)]
    + ["elapsed_ms=" + Decimal(Milliseconds(elapsed))]
    + When(stdoutTrunc, "stdout_truncated=true")
    + When(stderrTrunc, "stderr_truncated=true")
    + When(timedOut, "timed_out=true")
  }

  function RunMessage(rawExit: int, stdoutTrunc: bool, stderrTrunc: bool, timedOut: bool, elapsed: int, extra: string): string {
    var fixed := Join(RunParts(rawExit, stdoutTrunc, stderrTrunc, timedOut, elapsed));
    if extra == "" then fixed else fixed + " " + extra
  }

  lemma KeptOne(flag: bool, token: string)
    ensures Kept(When(flag, token)) == When(flag && Visible(token), token)
    ensures Kept([token]) == When(Visible(token), token)
  {
    assert Kept([]) == [];
    assert [token][..0] == [];
    assert When(true, token) == [token];
  }

  lemma FixedTokens(token: string)
    requires token in {"stdout_truncated=true", "stderr_truncated=true", "timed_out=true"} ||
             "raw_exit=" <= token || "elapsed_ms=" <= token
    ensures Visible(token) <==> token == "timed_out=true"
  {
    var s, e := "raw_exit=", "elapsed_ms=";
    assert s <= token ==> token[0] == s[0];
    assert e <= token ==> token[0] == e[0];
    assert Visible(token) ==> token[0] == GATE[0] && token[1] == GATE[1];
    var o := "timed_out=true";
    assert o[..10] == GATE;
    assert "stdout_truncated=true"[0] == 's' && "stderr_truncated=true"[0] == 's';
  }

  lemma KeptFive(a: seq<string>, b: seq<string>, c: seq<string>, d: seq<string>, e: seq<string>)
    ensures Kept(a + b + c + d + e) == Kept(a) + Kept(b) + Kept(c) + Kept(d) + Kept(e)
  {
    hide Kept;
    KeptAppend(a, b);
    KeptAppend(a + b, c);
    KeptAppend(a + b + c, d);
    KeptAppend(a + b + c + d, e);
  }

  lemma KeptPart(flag: bool, token: string)
    requires token in {"stdout_truncated=true", "stderr_truncated=true", "timed_out=true"} ||
             "raw_exit=" <= token || "elapsed_ms=" <= token
    ensures Kept(When(flag, token)) == if token == "timed_out=true" then When(flag, token) else []
  {
    FixedTokens(token);
    KeptOne(flag, token);
  }

  lemma KeptParts(rawExit: int, stdoutTrunc: bool, stderrTrunc: bool, timedOut: bool, elapsed: int)
    ensures Kept(RunParts(rawExit, stdoutTrunc, stderrTrunc, timedOut, elapsed)) == When(timedOut, "timed_out=true")
  {
    hide Kept, Decimal, Milliseconds;
    var a := "raw_exit=" + Decimal(rawExit);
    var b := "elapsed_ms=" + Decimal(Milliseconds(elapsed));
    assert a[0] != 't' && b[0] != 't';
    KeptFive([a], [b], When(stdoutTrunc, "stdout_truncated=true"), When(stderrTrunc, "stderr_truncated=true"),
             When(timedOut, "timed_out=true"));
    KeptPart(true, a);
    KeptPart(true, b);
    KeptPart(stdoutTrunc, "stdout_truncated=true");
    KeptPart(stderrTrunc, "stderr_truncated=true");
    KeptPart(timedOut, "timed_out=true");
  }

  lemma PartsSpaceFree(rawExit: int, stdoutTrunc: bool, stderrTrunc: bool, timedOut: bool, elapsed: int)
    ensures SpaceFree(RunParts(rawExit, stdoutTrunc, stderrTrunc, timedOut, elapsed))
  {
    hide Decimal, Milliseconds;
    assert ' ' !in "raw_exit=" && ' ' !in "elapsed_ms=";
  }

  lemma SomeParts(rawExit: int, stdoutTrunc: bool, stderrTrunc: bool, timedOut: bool, elapsed: int)
    ensures |RunParts(rawExit, stdoutTrunc, stderrTrunc, timedOut, elapsed)| > 0
  {
    hide Decimal, Milliseconds;
  }

  /**
   For any trailing text at all: the time-out flag, then whatever that text holds
   under the allowlisted key.
   */
  lemma RunMessageTokens(rawExit: int, stdoutTrunc: bool, stderrTrunc: bool, timedOut: bool, elapsed: int, extra: string)
    ensures Kept(Split(RunMessage(rawExit, stdoutTrunc, stderrTrunc, timedOut, elapsed, extra)))
         == When(timedOut, "timed_out=true") + Kept(Split(extra))
  {
    hide Kept, Split, Join, IndexOf, Decimal, Milliseconds, RunParts, Visible;
    var parts := RunParts(rawExit, stdoutTrunc, stderrTrunc, timedOut, elapsed);
    SomeParts(rawExit, stdoutTrunc, stderrTrunc, timedOut, elapsed);
    KeptParts(rawExit, stdoutTrunc, stderrTrunc, timedOut, elapsed);
    PartsSpaceFree(rawExit, stdoutTrunc, stderrTrunc, timedOut, elapsed);
    SplitOfJoin(parts);
    if extra == "" {
      WordIsDropped("");
    } else {
      FilterAppend(Join(parts), extra);
    }
  }

  /** A start error is reduced to one of three fixed words before it is logged. */
  datatype StartError = NoError | NotFound | PermissionDenied | OtherStartError

  function SanitizeExecStartErr(err: StartError): (word: string)
    ensures ' ' !in word && '=' !in word
    ensures err == NoError <==> word == ""
    ensures err == NotFound <==> word == "exec_not_found"
    ensures err == PermissionDenied <==> word == "exec_permission_denied"
    ensures err == OtherStartError <==> word == "exec_start_failed"
  {
    match err
    case NoError => ""
    case NotFound => "exec_not_found"
    case PermissionDenied => "exec_permission_denied"
    case OtherStartError => "exec_start_failed"
  }

  lemma WordIsDropped(word: string)
    requires ' ' !in word && '=' !in word
    ensures Kept(Split(word)) == []
  {
    FirstSpace(word, "");
    if Visible(word) {
      VisibleHasEquals(word);
    }
    KeptOne(true, word);
  }

  function Count(flag: bool): nat {
    if flag then 1 else 0
  }

  /** Among the fixed tokens a flag's token stands exactly if the flag is set. */
  predicate Flagged(tokens: seq<string>, stdoutTrunc: bool, stderrTrunc: bool, timedOut: bool) {
    && ("stdout_truncated=true" in tokens <==> stdoutTrunc)
    && ("stderr_truncated=true" in tokens <==> stderrTrunc)
    && ("timed_out=true" in tokens <==> timedOut)
  }

  lemma PartsSay(rawExit: int, stdoutTrunc: bool, stderrTrunc: bool, timedOut: bool, elapsed: int)
    ensures var parts := RunParts(rawExit, stdoutTrunc, stderrTrunc, timedOut, elapsed);
      && |parts| == 2 + Count(stdoutTrunc) + Count(stderrTrunc) + Count(timedOut)
      && parts[0] == "raw_exit=" + Decimal(rawExit)
      && parts[1] == "elapsed_ms=" + Decimal(Milliseconds(elapsed))
      && Flagged(parts, stdoutTrunc, stderrTrunc, timedOut)
  {
    hide Decimal, Milliseconds;
    var parts := RunParts(rawExit, stdoutTrunc, stderrTrunc, timedOut, elapsed);
    var o, e, t := "stdout_truncated=true", "stderr_truncated=true", "timed_out=true";
    assert o[0] == 's' && o[3] == 'o' && e[0] == 's' && e[3] == 'e' && t[0] == 't';
    assert parts[0][0] == 'r' && parts[1][0] == 'e';
    assert parts[2..] == When(stdoutTrunc, o) + When(stderrTrunc, e) + When(timedOut, t);
    assert forall x :: x in parts <==> x == parts[0] || x == parts[1] || x in parts[2..];
  }

  /**
   The operator can read the whole summary back: exit code and milliseconds from the first two
   tokens, the flags from the tokens that follow, and after these the extra text word for word.
   */
  lemma MessageReadsBack(rawExit: int, stdoutTrunc: bool, stderrTrunc: bool, timedOut: bool, elapsed: int, extra: string)
    ensures var tokens := Split(RunMessage(rawExit, stdoutTrunc, stderrTrunc, timedOut, elapsed, extra));
      var n := 2 + Count(stdoutTrunc) + Count(stderrTrunc) + Count(timedOut);
      && n <= |tokens|
      && "raw_exit=" <= tokens[0] && IsNumber(tokens[0][9..]) && ReadNumber(tokens[0][9..]) == rawExit
      && "elapsed_ms=" <= tokens[1] && IsNumber(tokens[1][11..]) && ReadNumber(tokens[1][11..]) == Milliseconds(elapsed)
      && Flagged(tokens[..n], stdoutTrunc, stderrTrunc, timedOut)
      && tokens[n..] == if extra == "" then [] else Split(extra)
  {
    hide Split, Join, IndexOf, Decimal, Milliseconds, RunParts, IsNumber, ReadNumber, Flagged;
    var parts := RunParts(rawExit, stdoutTrunc, stderrTrunc, timedOut, elapsed);
    PartsSay(rawExit, stdoutTrunc, stderrTrunc, timedOut, elapsed);
    PartsSpaceFree(rawExit, stdoutTrunc, stderrTrunc, timedOut, elapsed);
    SplitOfJoin(parts);
    SplitAppend(Join(parts), extra);
    DecimalRead(rawExit);
    DecimalRead(Milliseconds(elapsed));
    assert parts[0][9..] == Decimal(rawExit) && parts[1][11..] == Decimal(Milliseconds(elapsed));
    assert (parts + Split(extra))[..|parts|] == parts && (parts + Split(extra))[|parts|..] == Split(extra);
    assert parts[..|parts|] == parts && parts[|parts|..] == [];
  }

  /** The AI learns of a run whether it timed out, and nothing else. */
  lemma OnlyTimeoutShows(rawExit: int, stdoutTrunc: bool, stderrTrunc: bool, timedOut: bool, elapsed: int, err: StartError)
    ensures Filtered(RunMessage(rawExit, stdoutTrunc, stderrTrunc, timedOut, elapsed, SanitizeExecStartErr(err)))
         == if timedOut then "timed_out=true" else ""
  {
    RunMessageTokens(rawExit, stdoutTrunc, stderrTrunc, timedOut, elapsed, SanitizeExecStartErr(err));
    WordIsDropped(SanitizeExecStartErr(err));
  }

  /**
   With arbitrary trailing text that holds exactly when no token of the text
   opens with the allowlisted key.
   */
  lemma OnlyTimeoutShowsExactly(rawExit: int, stdoutTrunc: bool, stderrTrunc: bool, timedOut: bool, elapsed: int, extra: string)
    ensures Filtered(RunMessage(rawExit, stdoutTrunc, stderrTrunc, timedOut, elapsed, extra)) == (if timedOut then "timed_out=true" else "")
       <==> forall token :: token in Split(extra) ==> !Visible(token)
  {
    var msg := RunMessage(rawExit, stdoutTrunc, stderrTrunc, timedOut, elapsed, extra);
    var kept := Kept(Split(extra));
    RunMessageTokens(rawExit, stdoutTrunc, stderrTrunc, timedOut, elapsed, extra);
    FilteredTokens(msg);
    KeptEmpty(Split(extra));
    if Filtered(msg) == (if timedOut then "timed_out=true" else "") && timedOut {
      var flag := "timed_out=true";
      FirstSpace(flag, "");
      assert |Split(flag)| == 1;
      assert kept == [];
    }
  }

  lemma KeptEmpty(tokens: seq<string>)
    ensures Kept(tokens) == [] <==> forall token :: token in tokens ==> !Visible(token)
  {
    var at := KeepsExactlyTheAllowlisted(tokens);
    if at == [] {
      forall token | token in tokens ensures !Visible(token) {
        var i :| 0 <= i < |tokens| && tokens[i] == token;
        assert i !in at;
      }
    } else {
      assert Visible(Kept(tokens)[0]);
    }
  }
}
