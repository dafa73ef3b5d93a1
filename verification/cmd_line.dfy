/** How a process spec becomes a Windows command line and an environment block: the program
 *  name gets ".exe" unless it already has a three-letter extension, each argument is quoted as
 *  `syscall.EscapeArg` does, and "k=v" entries are split at the first '='. */
module CmdLine {
  import opened Text
  import WinPath

  const BACKSLASH: char := '\\'
  const QUOTE: char := '"'

  function Repeat(c: char, n: nat): (r: string)
    ensures |r| == n && forall i :: 0 <= i < n ==> r[i] == c
  {
    seq(n, _ => c)
  }

  predicate IsBlank(c: char) { c == ' ' || c == '\t' }

  predicate NoBlank(s: string) { forall i :: 0 <= i < |s| ==> !IsBlank(s[i]) }

  predicate HasBlank(s: string) { !NoBlank(s) }

  /** The body of `EscapeArg`'s loop, from a point where `slashes` backslashes have just been
   *  copied: a backslash is copied and counted, a quote gets the counted backslashes doubled
   *  and a backslash of its own, anything else is copied and resets the count. */
  function Escaped(s: string, slashes: nat): string
    decreases |s|
  {
    if s == "" then ""
    else if s[0] == BACKSLASH then [BACKSLASH] + Escaped(s[1..], slashes + 1)
    else if s[0] == QUOTE then Repeat(BACKSLASH, slashes) + [BACKSLASH, QUOTE] + Escaped(s[1..], 0)
    else [s[0]] + Escaped(s[1..], 0)
  }

  /** The number of backslashes `s` ends with: the loop's count when it finishes. */
  function TrailingBackslashes(s: string): (n: nat)
    ensures n <= |s|
    ensures forall i :: |s| - n <= i < |s| ==> s[i] == BACKSLASH
    ensures n < |s| ==> s[|s| - n - 1] != BACKSLASH
    decreases |s|
  {
    if s == "" || s[|s| - 1] != BACKSLASH then 0 else 1 + TrailingBackslashes(s[..|s| - 1])
  }

  /** `syscall.EscapeArg`: the empty string is `""`; a string with no quote, backslash or blank is
   *  kept; otherwise quotes are escaped and, if there is a blank, the whole is wrapped in quotes
   *  with the trailing backslashes doubled so the closing quote stays a quote. */
  function EscapeArg(s: string): (r: string)
    ensures |r| >= 1
    ensures s != "" && QUOTE !in s && BACKSLASH !in s && !HasBlank(s) ==> r == s
    ensures HasBlank(s) ==> r[0] == QUOTE && r[|r| - 1] == QUOTE
  {
    if s == "" then [QUOTE, QUOTE]
    else if !(QUOTE in s || BACKSLASH in s || HasBlank(s)) then s
    else if HasBlank(s) then [QUOTE] + Escaped(s, 0) + Repeat(BACKSLASH, TrailingBackslashes(s)) + [QUOTE]
    else
      EscapedNonEmpty(s, 0);
      Escaped(s, 0)
  }

  lemma EscapedNonEmpty(s: string, slashes: nat)
    requires s != ""
    ensures |Escaped(s, slashes)| >= 1
  {
  }

  // ---------------------------------------------------------------------------------------
  // Reading an argument back
  // ---------------------------------------------------------------------------------------

  /** How the Microsoft C runtime reads one argument, with `pending` backslashes not yet
   *  written: 2n backslashes before a quote give n and toggle quoting, 2n+1 give n and a
   *  literal quote, backslashes before anything else are literal, and an unquoted blank ends
   *  the argument. */
  function ReadArg(t: string, quoted: bool, pending: nat): string
    decreases |t|
  {
    if t == "" then Repeat(BACKSLASH, pending)
    else if t[0] == BACKSLASH then ReadArg(t[1..], quoted, pending + 1)
    else if t[0] == QUOTE then
      Repeat(BACKSLASH, pending / 2)
      + (if pending % 2 == 1 then [QUOTE] + ReadArg(t[1..], quoted, 0) else ReadArg(t[1..], !quoted, 0))
    else if IsBlank(t[0]) && !quoted then Repeat(BACKSLASH, pending)
    else Repeat(BACKSLASH, pending) + [t[0]] + ReadArg(t[1..], quoted, 0)
  }

  /** `s` without its trailing backslashes. */
  function DropTrailing(s: string): string
  {
    s[..|s| - TrailingBackslashes(s)]
  }

  lemma {:induction false} ReadBackslashes(n: nat, t: string, quoted: bool, pending: nat)
    ensures ReadArg(Repeat(BACKSLASH, n) + t, quoted, pending) == ReadArg(t, quoted, pending + n)
    decreases n
  {
    if n > 0 {
      var whole := Repeat(BACKSLASH, n) + t;
      assert whole[0] == BACKSLASH;
      assert whole[1..] == Repeat(BACKSLASH, n - 1) + t;
      ReadBackslashes(n - 1, t, quoted, pending + 1);
    } else {
      assert Repeat(BACKSLASH, n) + t == t;
    }
  }

  /** An escaped quote after `k` copied backslashes reads as those backslashes and a quote. */
  lemma ReadEscapedQuote(k: nat, rest: string, quoted: bool)
    ensures ReadArg(Repeat(BACKSLASH, k) + ([BACKSLASH, QUOTE] + rest), quoted, k)
            == Repeat(BACKSLASH, k) + ([QUOTE] + ReadArg(rest, quoted, 0))
  {
    ReadBackslashes(k, [BACKSLASH, QUOTE] + rest, quoted, k);
    var t := [BACKSLASH, QUOTE] + rest;
    assert t[0] == BACKSLASH && t[1..] == [QUOTE] + rest;
    var u := [QUOTE] + rest;
    assert u[0] == QUOTE && u[1..] == rest;
    assert (k + k + 1) / 2 == k && (k + k + 1) % 2 == 1;
  }

  /** An ordinary character after `k` pending backslashes releases them and is copied. */
  lemma ReadOrdinary(k: nat, c: char, rest: string, quoted: bool)
    requires c != BACKSLASH && c != QUOTE && (quoted || !IsBlank(c))
    ensures ReadArg([c] + rest, quoted, k) == Repeat(BACKSLASH, k) + ([c] + ReadArg(rest, quoted, 0))
  {
    var t := [c] + rest;
    assert t[0] == c && t[1..] == rest;
  }

  /** Reading what the loop wrote for `s`, after `slashes` backslashes still pending, gives back
   *  those backslashes and `s` up to its trailing run, which stays pending. */
  lemma {:induction false} ReadEscaped(s: string, slashes: nat, tail: string, quoted: bool)
    requires quoted || NoBlank(s)
    ensures ReadArg(Escaped(s, slashes) + tail, quoted, slashes)
              == DropTrailing(Repeat(BACKSLASH, slashes) + s) + ReadArg(tail, quoted, TrailingBackslashes(Repeat(BACKSLASH, slashes) + s))
    decreases |s|
  {
    var whole := Repeat(BACKSLASH, slashes) + s;
    if s == "" {
      assert whole == Repeat(BACKSLASH, slashes);
      RepeatTrailing(slashes);
      ReadBackslashes(0, tail, quoted, slashes);
    } else if s[0] == BACKSLASH {
      ReadEscapedBackslash(s, slashes, tail, quoted);
    } else {
      ReadEscapedOther(s, slashes, tail, quoted);
    }
  }

  lemma {:induction false} ReadEscapedBackslash(s: string, slashes: nat, tail: string, quoted: bool)
    requires quoted || NoBlank(s)
    requires s != "" && s[0] == BACKSLASH
    ensures ReadArg(Escaped(s, slashes) + tail, quoted, slashes)
              == DropTrailing(Repeat(BACKSLASH, slashes) + s) + ReadArg(tail, quoted, TrailingBackslashes(Repeat(BACKSLASH, slashes) + s))
    decreases |s|, 0
  {
    assert Repeat(BACKSLASH, slashes + 1) + s[1..] == Repeat(BACKSLASH, slashes) + s;
    var t := Escaped(s, slashes) + tail;
    assert t == [BACKSLASH] + (Escaped(s[1..], slashes + 1) + tail);
    assert t[0] == BACKSLASH && t[1..] == Escaped(s[1..], slashes + 1) + tail;
    ReadEscaped(s[1..], slashes + 1, tail, quoted);
  }

  lemma {:induction false} ReadEscapedOther(s: string, slashes: nat, tail: string, quoted: bool)
    requires quoted || NoBlank(s)
    requires s != "" && s[0] != BACKSLASH
    ensures ReadArg(Escaped(s, slashes) + tail, quoted, slashes)
              == DropTrailing(Repeat(BACKSLASH, slashes) + s) + ReadArg(tail, quoted, TrailingBackslashes(Repeat(BACKSLASH, slashes) + s))
    decreases |s|, 1
  {
    var rest := Escaped(s[1..], 0) + tail;
    var after := ReadArg(tail, quoted, TrailingBackslashes(s[1..]));
    ReadEscapedRest(s, tail, quoted);
    assert ReadArg(rest, quoted, 0) == DropTrailing(s[1..]) + after;
    if s[0] == QUOTE {
      EscapedQuote(s, slashes, tail);
      ReadEscapedQuote(slashes, rest, quoted);
    } else {
      assert quoted || !IsBlank(s[0]);
      EscapedOrdinary(s, slashes, tail);
      ReadOrdinary(slashes, s[0], rest, quoted);
    }
    PutBack(slashes, s, after);
  }

  lemma {:induction false} ReadEscapedRest(s: string, tail: string, quoted: bool)
    requires quoted || NoBlank(s)
    requires s != "" && s[0] != BACKSLASH
    ensures ReadArg(Escaped(s[1..], 0) + tail, quoted, 0)
              == DropTrailing(s[1..]) + ReadArg(tail, quoted, TrailingBackslashes(s[1..]))
    decreases |s|, 0
  {
    ReadEscaped(s[1..], 0, tail, quoted);
    assert Repeat(BACKSLASH, 0) + s[1..] == s[1..];
  }

  lemma EscapedQuote(s: string, slashes: nat, tail: string)
    requires s != "" && s[0] == QUOTE
    ensures Escaped(s, slashes) + tail == Repeat(BACKSLASH, slashes) + ([BACKSLASH, QUOTE] + (Escaped(s[1..], 0) + tail))
  {
  }

  lemma EscapedOrdinary(s: string, slashes: nat, tail: string)
    requires s != "" && s[0] != QUOTE && s[0] != BACKSLASH
    ensures Escaped(s, slashes) + tail == [s[0]] + (Escaped(s[1..], 0) + tail)
  {
  }

  /** Putting the first character and the backslashes before it back in front of the rest. */
  lemma PutBack(k: nat, s: string, after: string)
    requires s != "" && s[0] != BACKSLASH
    ensures Repeat(BACKSLASH, k) + ([s[0]] + (DropTrailing(s[1..]) + after))
              == DropTrailing(Repeat(BACKSLASH, k) + s) + after
    ensures TrailingBackslashes(Repeat(BACKSLASH, k) + s) == TrailingBackslashes(s[1..])
  {
    var head := Repeat(BACKSLASH, k) + [s[0]];
    assert Repeat(BACKSLASH, k) + s == head + s[1..];
    TrailingAfter(head, s[1..]);
  }

  lemma {:induction false} RepeatTrailing(n: nat)
    ensures TrailingBackslashes(Repeat(BACKSLASH, n)) == n
    decreases n
  {
    if n > 0 {
      assert Repeat(BACKSLASH, n)[..n - 1] == Repeat(BACKSLASH, n - 1);
      RepeatTrailing(n - 1);
    }
  }

  /** Trailing backslashes of a string whose head ends in something else come from the tail. */
  lemma {:induction false} TrailingAfter(head: string, tail: string)
    requires |head| >= 1 && head[|head| - 1] != BACKSLASH
    ensures TrailingBackslashes(head + tail) == TrailingBackslashes(tail)
    ensures DropTrailing(head + tail) == head + DropTrailing(tail)
    decreases |tail|
  {
    if tail != [] && tail[|tail| - 1] == BACKSLASH {
      assert (head + tail)[..|head + tail| - 1] == head + tail[..|tail| - 1];
      TrailingAfter(head, tail[..|tail| - 1]);
    } else {
      assert (head + tail)[|head + tail| - 1] != BACKSLASH by {
        if tail != [] { assert (head + tail)[|head + tail| - 1] == tail[|tail| - 1]; }
      }
    }
  }

  lemma DropTrailingThenRepeat(s: string)
    ensures DropTrailing(s) + Repeat(BACKSLASH, TrailingBackslashes(s)) == s
  {
    var n := TrailingBackslashes(s);
    assert s[|s| - n..] == Repeat(BACKSLASH, n);
  }

  /** What `EscapeArg` writes is read back as exactly the original argument, and no unquoted
   *  blank cuts it short. */
  lemma EscapeArgRoundTrip(s: string)
    ensures ReadArg(EscapeArg(s), false, 0) == s
  {
    if s == "" {
      assert ReadArg([QUOTE, QUOTE], false, 0) == ReadArg([QUOTE], true, 0);
    } else if HasBlank(s) {
      RoundTripQuoted(s);
    } else {
      RoundTripBare(s);
    }
  }

  /** An argument with a blank is wrapped in quotes, the closing one after the doubled run. */
  lemma RoundTripQuoted(s: string)
    requires HasBlank(s)
    ensures ReadArg(EscapeArg(s), false, 0) == s
  {
    var n := TrailingBackslashes(s);
    var closing := Repeat(BACKSLASH, n) + [QUOTE];
    var t := Escaped(s, 0) + closing;
    assert EscapeArg(s) == [QUOTE] + t;
    assert ([QUOTE] + t)[0] == QUOTE && ([QUOTE] + t)[1..] == t;
    assert ReadArg(EscapeArg(s), false, 0) == ReadArg(t, true, 0);
    ReadEscaped(s, 0, closing, true);
    assert Repeat(BACKSLASH, 0) + s == s;
    assert ReadArg(t, true, 0) == DropTrailing(s) + ReadArg(closing, true, n);
    ReadClosing(n);
    DropTrailingThenRepeat(s);
  }

  /** `n` copied and `n` added backslashes before the closing quote read as `n` backslashes. */
  lemma ReadClosing(n: nat)
    ensures ReadArg(Repeat(BACKSLASH, n) + [QUOTE], true, n) == Repeat(BACKSLASH, n)
  {
    ReadBackslashes(n, [QUOTE], true, n);
    assert (n + n) / 2 == n && (n + n) % 2 == 0;
    var q: string := [QUOTE];
    assert q[0] == QUOTE && q[1..] == [];
    assert ReadArg(q, true, n + n) == Repeat(BACKSLASH, n) + ReadArg([], false, 0);
    assert Repeat(BACKSLASH, n) + "" == Repeat(BACKSLASH, n);
  }

  /** An argument without a blank is written without quotes. */
  lemma RoundTripBare(s: string)
    requires s != "" && NoBlank(s)
    ensures ReadArg(EscapeArg(s), false, 0) == s
  {
    var n := TrailingBackslashes(s);
    ReadEscaped(s, 0, "", false);
    assert Repeat(BACKSLASH, 0) + s == s;
    assert Escaped(s, 0) + "" == Escaped(s, 0);
    if QUOTE !in s && BACKSLASH !in s {
      EscapedWithoutSpecials(s, 0);
    }
    assert EscapeArg(s) == Escaped(s, 0);
    assert ReadArg("", false, n) == Repeat(BACKSLASH, n);
    DropTrailingThenRepeat(s);
  }

  lemma {:induction false} EscapedWithoutSpecials(s: string, slashes: nat)
    requires QUOTE !in s
    ensures Escaped(s, slashes) == s
    decreases |s|
  {
    if s != "" {
      EscapedWithoutSpecials(s[1..], if s[0] == BACKSLASH then slashes + 1 else 0);
    }
  }

  // ---------------------------------------------------------------------------------------
  // The command line
  // ---------------------------------------------------------------------------------------

  /** The pattern `\.[a-zA-Z]{3}$`: a dot and three ASCII letters at the end. */
  predicate HasThreeLetterExtension(name: string)
  {
    |name| >= 4 && name[|name| - 4] == '.'
    && WinPath.IsLetter(name[|name| - 3]) && WinPath.IsLetter(name[|name| - 2]) && WinPath.IsLetter(name[|name| - 1])
  }

  /** The argument list `makeCmdLine` escapes: the program path cleaned, with ".exe" added
   *  when its base name has no three-letter extension. The caller's slice sees this change. */
  function ProgramArgs(args: seq<string>): (r: seq<string>)
    ensures |r| == |args| && (|args| > 0 ==> r[1..] == args[1..])
    ensures |args| > 0 ==> var program := WinPath.Clean(args[0]); r[0] == program || r[0] == program + ".exe"
    ensures |args| > 0 ==> (r[0] == WinPath.Clean(args[0]) <==> HasThreeLetterExtension(WinPath.Base(WinPath.Clean(args[0]))))
  {
    if |args| == 0 then args
    else
      var program := WinPath.Clean(args[0]);
      [if HasThreeLetterExtension(WinPath.Base(program)) then program else program + ".exe"] + args[1..]
  }

  /** The loop of `makeCmdLine`: a space before every argument but the first written one. */
  function AppendArgs(args: seq<string>, s: string): string
    decreases |args|
  {
    if |args| == 0 then s
    else AppendArgs(args[1..], (if s != "" then s + " " else s) + EscapeArg(args[0]))
  }

  /** `makeCmdLine`. */
  function MakeCmdLine(args: seq<string>): string
  {
    AppendArgs(ProgramArgs(args), "")
  }

  function EscapeAll(args: seq<string>): (r: seq<string>)
    ensures |r| == |args| && forall i :: 0 <= i < |args| ==> r[i] == EscapeArg(args[i])
  {
    seq(|args|, i requires 0 <= i < |args| => EscapeArg(args[i]))
  }

  /** Because no escaped argument is empty, the command line is the escaped arguments joined by
   *  single spaces. */
  lemma MakeCmdLineJoins(args: seq<string>)
    ensures MakeCmdLine(args) == Join(EscapeAll(ProgramArgs(args)), " ")
  {
    AppendArgsFromEmpty(ProgramArgs(args));
  }

  lemma AppendArgsFromEmpty(a: seq<string>)
    ensures AppendArgs(a, "") == Join(EscapeAll(a), " ")
  {
    if |a| > 0 {
      AppendArgsJoins(a, 1);
      var first := EscapeArg(a[0]);
      assert EscapeAll(a[..1]) == [first];
      assert Join([first], " ") == first;
      assert "" + first == first;
      assert AppendArgs(a, "") == AppendArgs(a[1..], first);
    }
  }

  /** After the first `k` arguments the loop has written their join. */
  lemma {:induction false} AppendArgsJoins(a: seq<string>, k: nat)
    requires 1 <= k <= |a|
    ensures AppendArgs(a[k..], Join(EscapeAll(a[..k]), " ")) == Join(EscapeAll(a), " ")
    decreases |a| - k
  {
    if k < |a| {
      var done := EscapeAll(a[..k]);
      var written := Join(done, " ");
      var next := EscapeArg(a[k]);
      JoinStartsWithFirst(done, " ");
      assert written != "" by { assert |done[0]| >= 1; }
      assert a[k..][0] == a[k] && a[k..][1..] == a[k + 1..];
      assert AppendArgs(a[k..], written) == AppendArgs(a[k + 1..], written + " " + next);
      assert EscapeAll(a[..k + 1]) == done + [next] by {
        var more := EscapeAll(a[..k + 1]);
        assert |more| == |done + [next]|;
        forall i | 0 <= i < |more| ensures more[i] == (done + [next])[i] {
          assert a[..k + 1][i] == a[i];
          if i < k { assert a[..k][i] == a[i]; }
        }
      }
      JoinSnoc(done, next, " ");
      AppendArgsJoins(a, k + 1);
    } else {
      assert a[..k] == a;
    }
  }

  // ---------------------------------------------------------------------------------------
  // The environment
  // ---------------------------------------------------------------------------------------

  /** The key of an environment entry: the text before its first '='. */
  function EnvKey(e: string): string { Split(e, '=')[0] }

  /** The value `Exec` stores: the other pieces joined with '=' again. */
  function EnvValue(e: string): string
  {
    var pieces := Split(e, '=');
    Join(pieces[1..], "=")
  }

  /** The key is everything before the first '=' and the value everything after it; an entry
   *  with no '=' is a key with the empty value. */
  lemma EnvEntrySplitsAtFirstEquals(e: string)
    ensures '=' in e ==> EnvKey(e) == e[..IndexOf(e, '=')] && EnvValue(e) == e[IndexOf(e, '=') + 1..]
    ensures '=' !in e ==> EnvKey(e) == e && EnvValue(e) == ""
  {
    SplitShape(e, '=');
    if '=' in e {
      var k := IndexOf(e, '=');
      assert Split(e, '=')[1..] == Split(e[k + 1..], '=');
      JoinSplit(e[k + 1..], '=');
    }
  }

  /** The environment map built by `Exec`, later entries overwriting earlier ones. */
  function EnvMap(env: seq<string>): (m: map<string, string>)
    ensures m.Keys == set i | 0 <= i < |env| :: EnvKey(env[i])
    ensures |env| > 0 ==> m[EnvKey(env[|env| - 1])] == EnvValue(env[|env| - 1])
    decreases |env|
  {
    if |env| == 0 then map[]
    else
      var before := EnvMap(env[..|env| - 1]);
      var last := env[|env| - 1];
      var m := before[EnvKey(last) := EnvValue(last)];
      assert m.Keys == set i | 0 <= i < |env| :: EnvKey(env[i]) by {
        forall x | x in m.Keys ensures x in set i | 0 <= i < |env| :: EnvKey(env[i]) {
          if x != EnvKey(last) {
            var i :| 0 <= i < |env| - 1 && EnvKey(env[..|env| - 1][i]) == x;
            assert env[..|env| - 1][i] == env[i];
          }
        }
        forall x | x in set i | 0 <= i < |env| :: EnvKey(env[i]) ensures x in m.Keys {
          var i :| 0 <= i < |env| && EnvKey(env[i]) == x;
          if i < |env| - 1 { assert env[..|env| - 1][i] == env[i]; }
        }
      }
      m
  }

  /** Each key maps to the value of the last entry that has it. */
  lemma {:induction false} EnvMapLastWins(env: seq<string>, j: nat)
    requires j < |env|
    requires forall i :: j < i < |env| ==> EnvKey(env[i]) != EnvKey(env[j])
    ensures EnvMap(env)[EnvKey(env[j])] == EnvValue(env[j])
    decreases |env|
  {
    if j < |env| - 1 {
      var front := env[..|env| - 1];
      assert front[j] == env[j];
      assert forall i :: j < i < |front| ==> front[i] == env[i];
      EnvMapLastWins(front, j);
    }
  }
}
