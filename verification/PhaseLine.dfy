/**
 * The phase timer's one-line report (phase-timer.ts) and its parser (bench.ts): what a printed
 * line reads back as, and what any other line, well-formed or not, is taken to say.
 */
module PhaseLine {
  import opened Bytes
  import opened JsNumber

  /** An insertion-ordered map from names to milliseconds. */
  datatype Phase = Phase(name: string, ms: int)

  function SetPhase(ps: seq<Phase>, name: string, ms: int): seq<Phase> {
    if ps == [] then [Phase(name, ms)]
    else if ps[0].name == name then [Phase(name, ms)] + ps[1..]
    else [ps[0]] + SetPhase(ps[1..], name, ms)
  }

  predicate Named(ps: seq<Phase>, name: string) { exists p :: p in ps && p.name == name }

  predicate Distinct(ps: seq<Phase>) { ps == [] || (!Named(ps[1..], ps[0].name) && Distinct(ps[1..])) }

  lemma {:induction false} SetKeepsDistinct(ps: seq<Phase>, name: string, ms: int)
    requires Distinct(ps)
    ensures Distinct(SetPhase(ps, name, ms))
    ensures forall n :: Named(SetPhase(ps, name, ms), n) <==> n == name || Named(ps, n)
  {
    var r := SetPhase(ps, name, ms);
    if ps != [] {
      SetKeepsDistinct(ps[1..], name, ms);
      assert r[1..] == if ps[0].name == name then ps[1..] else SetPhase(ps[1..], name, ms);
      assert forall n :: Named(ps, n) <==> ps[0].name == n || Named(ps[1..], n) by {
        forall n ensures Named(ps, n) <==> ps[0].name == n || Named(ps[1..], n) { NamedSplit(ps, n); }
      }
      forall n ensures Named(r, n) <==> r[0].name == n || Named(r[1..], n) { NamedSplit(r, n); }
    } else {
      forall n ensures Named(r, n) <==> n == name { NamedSplit(r, n); }
    }
  }

  lemma NamedSplit(ps: seq<Phase>, n: string)
    requires ps != []
    ensures Named(ps, n) <==> ps[0].name == n || Named(ps[1..], n)
  {
    if Named(ps, n) {
      var p :| p in ps && p.name == n;
      assert p == ps[0] || p in ps[1..];
    }
    if Named(ps[1..], n) {
      var p :| p in ps[1..] && p.name == n;
      assert p in ps;
    }
    assert ps[0] in ps;
  }

  /** Setting a new name appends it. */
  lemma {:induction false} SetNew(ps: seq<Phase>, name: string, ms: int)
    requires !Named(ps, name)
    ensures SetPhase(ps, name, ms) == ps + [Phase(name, ms)]
  {
    hide Named;
    if ps != [] {
      NamedSplit(ps, name);
      SetNew(ps[1..], name, ms);
      assert [ps[0]] + ps[1..] == ps;
      Associative([ps[0]], ps[1..], [Phase(name, ms)]);
    }
  }

  /** Setting a name keeps every other entry in its place, and the name's own if it has one. */
  lemma {:induction false} SetIsInPlace(ps: seq<Phase>, name: string, ms: int)
    requires Distinct(ps)
    ensures var r := SetPhase(ps, name, ms);
            && |r| == |ps| + (if Named(ps, name) then 0 else 1)
            && (forall i :: 0 <= i < |ps| ==> r[i] == if ps[i].name == name then Phase(name, ms) else ps[i])
            && (!Named(ps, name) ==> r[|ps|] == Phase(name, ms))
  {
    if ps != [] {
      NamedSplit(ps, name);
      SetIsInPlace(ps[1..], name, ms);
      if ps[0].name == name {
        forall i | 0 < i < |ps|
          ensures ps[i].name != name
        {
          assert ps[i] in ps[1..];
        }
      }
      forall i | 0 < i < |ps|
        ensures SetPhase(ps, name, ms)[i] == if ps[i].name == name then Phase(name, ms) else ps[i]
      {
        assert ps[1..][i - 1] == ps[i];
      }
    }
  }

  // ---------- The printer ----------

  /** parts.join(" ") */
  function Join(parts: seq<string>): string {
    if parts == [] then "" else if |parts| == 1 then parts[0] else parts[0] + " " + Join(parts[1..])
  }

  function Token(name: string, value: string): string { name + "=" + value }

  function PhaseTokens(ps: seq<Phase>): seq<string> {
    if ps == [] then [] else [Token(ps[0].name, Decimal(ps[0].ms))] + PhaseTokens(ps[1..])
  }

  function Tokens(kind: string, total: int, ps: seq<Phase>): seq<string> {
    [Token("kind", kind), Token("total", Decimal(total))] + PhaseTokens(ps)
  }

  const INTRO := "phases "

  function Line(kind: string, total: int, ps: seq<Phase>): string { INTRO + Join(Tokens(kind, total, ps)) }

  lemma {:induction false} PhaseTokensPush(ps: seq<Phase>, p: Phase)
    ensures PhaseTokens(ps + [p]) == PhaseTokens(ps) + [Token(p.name, Decimal(p.ms))]
  {
    if ps == [] {
      assert PhaseTokens([p]) == [Token(p.name, Decimal(p.ms))] + PhaseTokens([]);
    } else {
      assert (ps + [p])[1..] == ps[1..] + [p];
      PhaseTokensPush(ps[1..], p);
    }
  }

  /** The clock is a parameter of each call. */
  class PhaseTimer {
    const t0: int
    var starts: map<string, int>
    var durations: seq<Phase>

    constructor (now: int)
      ensures Valid() && t0 == now && starts == map[] && durations == []
    {
      t0, starts, durations := now, map[], [];
    }

    ghost predicate Valid()
      reads this
    {
      Distinct(durations)
    }

    method Start(name: string, now: int)
      requires Valid()
      modifies this`starts
      ensures Valid() && starts == old(starts)[name := now]
    {
      starts := starts[name := now];
    }

    method End(name: string, now: int) returns (elapsed: Option<int>)
      requires Valid()
      modifies this
      ensures Valid()
      ensures name !in old(starts) ==> elapsed == None && starts == old(starts) && durations == old(durations)
      ensures name in old(starts) ==>
                && elapsed == Some(now - old(starts)[name]) && starts == old(starts) - {name}
                && durations == SetPhase(old(durations), name, now - old(starts)[name])
    {
      if name !in starts { return None; }
      var ms := now - starts[name];
      SetKeepsDistinct(durations, name, ms);
      starts, durations := starts - {name}, SetPhase(durations, name, ms);
      elapsed := Some(ms);
    }

    method Mark(name: string, ms: Option<int>)
      requires Valid()
      modifies this`durations
      ensures Valid()
      ensures durations == if ms.None? then old(durations) else SetPhase(old(durations), name, ms.value)
    {
      if ms.None? { return; }
      SetKeepsDistinct(durations, name, ms.value);
      durations := SetPhase(durations, name, ms.value);
    }

    method Format(kind: string, totalMs: Option<int>, now: int) returns (line: string)
      ensures line == Line(kind, if totalMs.Some? then totalMs.value else now - t0, durations)
    {
      hide Token, Decimal, Join;
      var total := if totalMs.Some? then totalMs.value else now - t0;
      var parts := [Token("kind", kind), Token("total", Decimal(total))];
      for i := 0 to |durations|
        invariant parts == [Token("kind", kind), Token("total", Decimal(total))] + PhaseTokens(durations[..i])
      {
        PhaseTokensPush(durations[..i], durations[i]);
        assert durations[..i + 1] == durations[..i] + [durations[i]];
        parts := parts + [Token(durations[i].name, Decimal(durations[i].ms))];
      }
      assert durations[..|durations|] == durations;
      line := INTRO + Join(parts);
    }
  }

  // ---------- The parser ----------

  function Trim(s: string): string { TrimEnd(SkipBlanks(s)) }

  function TrimEnd(s: string): string {
    if s != [] && IsBlank(s[|s| - 1]) then TrimEnd(s[..|s| - 1]) else s
  }

  /** The index of the first blank, or the length. */
  function FirstBlank(s: string): (n: nat)
    ensures n <= |s| && (n < |s| ==> IsBlank(s[n])) && forall i :: 0 <= i < n ==> !IsBlank(s[i])
  {
    if s == [] || IsBlank(s[0]) then 0 else 1 + FirstBlank(s[1..])
  }

  lemma SkipBlanksShrinks(s: string)
    ensures |SkipBlanks(s)| <= |s|
  {
  }

  /** s.split(/\s+/) */
  function SplitBlanks(s: string): (parts: seq<string>)
    ensures parts != []
    decreases |s|
  {
    var n := FirstBlank(s);
    if n == |s| then [s]
    else
      SkipBlanksShrinks(s[n + 1..]);
      [s[..n]] + SplitBlanks(SkipBlanks(s[n + 1..]))
  }

  /** The index of the first c, or -1. */
  function IndexOf(s: string, c: char): (n: int)
    ensures -1 <= n < |s|
    ensures n >= 0 ==> s[n] == c && forall i :: 0 <= i < n ==> s[i] != c
    ensures n == -1 ==> c !in s
  {
    if s == [] then -1 else if s[0] == c then 0
    else var n := IndexOf(s[1..], c); if n == -1 then -1 else n + 1
  }

  predicate IntroAt(line: string, i: nat) { i + 7 <= |line| && line[i..i + 7] == INTRO }

  /** line.indexOf("phases ") */
  function IndexOfIntro(line: string, from: nat): (n: int)
    requires from <= |line|
    ensures n >= 0 ==> IntroAt(line, n) && forall i :: from <= i < n ==> !IntroAt(line, i)
    ensures n < 0 ==> n == -1 && forall i :: from <= i <= |line| ==> !IntroAt(line, i)
    decreases |line| - from
  {
    if IntroAt(line, from) then from else if from == |line| then -1 else IndexOfIntro(line, from + 1)
  }

  function PhaseLineTail(line: string): Option<string> {
    var n := IndexOfIntro(line, 0);
    if n < 0 then None else Some(Trim(line[n + 7..]))
  }

  datatype Parsed = Parsed(kind: string, total: Number, phases: seq<Phase>)

  /** What one token does; without '=' it spoils the line. */
  function Take(st: Parsed, token: string): Option<Parsed> {
    var eq := IndexOf(token, '=');
    if eq < 0 then None
    else
      var key, value := token[..eq], token[eq + 1..];
      if key == "kind" then Some(st.(kind := value))
      else if key == "total" then Some(st.(total := ParseInt(value)))
      else
        match ParseInt(value)
        case Finite(n) => Some(st.(phases := SetPhase(st.phases, key, n)))
        case _ => Some(st)
  }

  function TakeAll(st: Parsed, tokens: seq<string>): Option<Parsed>
    decreases |tokens|
  {
    if tokens == [] then Some(st)
    else
      match Take(st, tokens[0])
      case None => None
      case Some(next) => TakeAll(next, tokens[1..])
  }

  predicate NonNegative(n: Number) {
    match n
    case Finite(v) => v >= 0
    case Infinite(negative) => !negative
    case NaN => false
  }

  const BLANK_LINE := Parsed("", Finite(-1), [])

  function ParsePhaseLine(line: string): Option<Parsed> {
    match PhaseLineTail(line)
    case None => None
    case Some(tail) =>
      match TakeAll(BLANK_LINE, SplitBlanks(tail))
      case None => None
      case Some(st) => if st.kind != "" && NonNegative(st.total) then Some(st) else None
  }

  /** What is recorded under a name, if anything. */
  function Recorded(ps: seq<Phase>, name: string): Option<int> {
    if ps == [] then None else if ps[0].name == name then Some(ps[0].ms) else Recorded(ps[1..], name)
  }

  lemma {:induction false} RecordedAfterSet(ps: seq<Phase>, name: string, ms: int, n: string)
    ensures Recorded(SetPhase(ps, name, ms), n) == if n == name then Some(ms) else Recorded(ps, n)
  {
    if ps != [] {
      RecordedAfterSet(ps[1..], name, ms, n);
    }
  }

  /** The token has this key, and this value after its first '='. */
  predicate Says(token: string, key: string, value: string) { '=' !in key && token == key + "=" + value }

  lemma SaysOneThing(token: string, key: string, value: string)
    requires Says(token, key, value)
    ensures IndexOf(token, '=') == |key| && token[..|key|] == key && token[|key| + 1..] == value
  {
    assert token[|key|] == '=';
    assert forall i :: 0 <= i < |key| ==> token[i] == key[i] && key[i] in key;
  }

  /** The line is spoilt exactly by a token without '='. */
  lemma {:induction false} TakesAllIff(st: Parsed, tokens: seq<string>)
    ensures TakeAll(st, tokens).Some? <==> forall t :: t in tokens ==> '=' in t
    decreases |tokens|
  {
    if tokens != [] {
      var eq := IndexOf(tokens[0], '=');
      assert eq >= 0 ==> tokens[0][eq] in tokens[0];
      assert forall t :: t in tokens <==> t == tokens[0] || t in tokens[1..];
      if eq >= 0 {
        TakesAllIff(Take(st, tokens[0]).value, tokens[1..]);
      }
    }
  }

  /** No token has this key. */
  predicate Silent(tokens: seq<string>, key: string) { forall i :: 0 <= i < |tokens| ==> !(key + "=" <= tokens[i]) }

  lemma OtherKey(st: Parsed, token: string, key: string)
    requires '=' !in key && !(key + "=" <= token) && Take(st, token).Some?
    ensures var next := Take(st, token).value;
            && (key == "kind" ==> next.kind == st.kind) && (key == "total" ==> next.total == st.total)
            && Recorded(next.phases, key) == Recorded(st.phases, key)
  {
    var eq := IndexOf(token, '=');
    assert token[..eq] + "=" <= token;
    match ParseInt(token[eq + 1..]) {
      case Finite(n) => RecordedAfterSet(st.phases, token[..eq], n, key);
      case _ =>
    }
  }

  lemma {:induction false} SilenceKeeps(st: Parsed, tokens: seq<string>, key: string)
    requires '=' !in key && Silent(tokens, key) && TakeAll(st, tokens).Some?
    ensures var r := TakeAll(st, tokens).value;
            && (key == "kind" ==> r.kind == st.kind) && (key == "total" ==> r.total == st.total)
            && Recorded(r.phases, key) == Recorded(st.phases, key)
    decreases |tokens|
  {
    hide Take;
    if tokens != [] {
      OtherKey(st, tokens[0], key);
      SilenceKeeps(Take(st, tokens[0]).value, tokens[1..], key);
    }
  }

  /** The last token with a key is what the line says about it; a phase without a number is passed over. */
  lemma {:induction false} LastTokenWins(st: Parsed, tokens: seq<string>, i: nat, key: string, value: string)
    requires i < |tokens| && Says(tokens[i], key, value) && Silent(tokens[i + 1..], key)
    requires TakeAll(st, tokens).Some?
    ensures var r := TakeAll(st, tokens).value;
            && (key == "kind" ==> r.kind == value) && (key == "total" ==> r.total == ParseInt(value))
            && (key != "kind" && key != "total" && ParseInt(value).Finite? ==>
                  Recorded(r.phases, key) == Some(ParseInt(value).value))
    decreases |tokens|
  {
    var next := Take(st, tokens[0]).value;
    if i == 0 {
      SaysOneThing(tokens[0], key, value);
      if key != "kind" && key != "total" && ParseInt(value).Finite? {
        RecordedAfterSet(st.phases, key, ParseInt(value).value, key);
      }
      SilenceKeeps(next, tokens[1..], key);
    } else {
      assert tokens[1..][i - 1] == tokens[i] && tokens[1..][i..] == tokens[i + 1..];
      LastTokenWins(next, tokens[1..], i - 1, key, value);
    }
  }

  method ReadPhaseLine(line: string) returns (r: Option<Parsed>)
    ensures r == ParsePhaseLine(line)
  {
    var tail := PhaseLineTail(line);
    if tail.None? { return None; }
    var tokens := SplitBlanks(tail.value);
    var st := BLANK_LINE;
    for i := 0 to |tokens|
      invariant TakeAll(st, tokens[i..]) == TakeAll(BLANK_LINE, tokens)
    {
      assert tokens[i..][1..] == tokens[i + 1..];
      var next := Take(st, tokens[i]);
      if next.None? { return None; }
      st := next.value;
    }
    r := if st.kind != "" && NonNegative(st.total) then Some(st) else None;
  }

  // ---------- Reading back what was printed ----------

  predicate NoBlank(s: string) { forall i :: 0 <= i < |s| ==> !IsBlank(s[i]) }

  predicate AllBlank(s: string) { forall i :: 0 <= i < |s| ==> IsBlank(s[i]) }

  /** A name that the parser takes for a phase, whole. */
  predicate PhaseName(name: string) { NoBlank(name) && '=' !in name && name != "kind" && name != "total" }

  predicate Safe(n: int) { -TWO53 < n < TWO53 }

  predicate Printable(ps: seq<Phase>) {
    ps == [] || (PhaseName(ps[0].name) && Safe(ps[0].ms) && Printable(ps[1..]))
  }

  predicate AllClean(ts: seq<string>) { ts == [] || (ts[0] != "" && NoBlank(ts[0]) && AllClean(ts[1..])) }

  lemma DecimalClean(n: int)
    ensures NoBlank(Decimal(n)) && Decimal(n) != ""
  {
    var m := if n < 0 then -n else n;
    assert forall i :: 0 <= i < |Digits(m)| ==> IsDigit(Digits(m)[i]);
  }

  lemma TokenClean(name: string, value: string)
    requires NoBlank(name) && NoBlank(value)
    ensures Token(name, value) != "" && NoBlank(Token(name, value))
  {
  }

  lemma {:induction false} PhaseTokensClean(ps: seq<Phase>)
    requires Printable(ps)
    ensures AllClean(PhaseTokens(ps))
  {
    if ps != [] {
      DecimalClean(ps[0].ms);
      TokenClean(ps[0].name, Decimal(ps[0].ms));
      PhaseTokensClean(ps[1..]);
    }
  }

  lemma TokensClean(kind: string, total: int, ps: seq<Phase>)
    requires NoBlank(kind) && Printable(ps)
    ensures Tokens(kind, total, ps) != [] && AllClean(Tokens(kind, total, ps))
  {
    hide Token, Decimal, PhaseTokens, AllClean;
    var k, t, rest := Token("kind", kind), Token("total", Decimal(total)), PhaseTokens(ps);
    PhaseTokensClean(ps);
    DecimalClean(total);
    TokenClean("kind", kind);
    TokenClean("total", Decimal(total));
    AllCleanCons(t, rest);
    AllCleanCons(k, [t] + rest);
    assert [k] + ([t] + rest) == Tokens(kind, total, ps);
  }

  lemma AllCleanCons(t: string, ts: seq<string>)
    requires t != "" && NoBlank(t) && AllClean(ts)
    ensures AllClean([t] + ts)
  {
    assert ([t] + ts)[1..] == ts;
  }

  lemma {:induction false} FirstBlankAfter(t: string, rest: string)
    requires NoBlank(t) && rest != "" && IsBlank(rest[0])
    ensures FirstBlank(t + rest) == |t|
  {
    if t == "" {
      assert t + rest == rest;
    } else {
      assert (t + rest)[1..] == t[1..] + rest;
      FirstBlankAfter(t[1..], rest);
    }
  }

  /** Both ends of a joined line are ends of tokens. */
  lemma {:induction false} JoinEnds(ts: seq<string>)
    requires ts != [] && AllClean(ts)
    ensures var s := Join(ts); s != "" && !IsBlank(s[0]) && !IsBlank(s[|s| - 1])
  {
    if |ts| > 1 {
      JoinEnds(ts[1..]);
    }
  }

  lemma {:induction false} SplitJoin(ts: seq<string>)
    requires ts != [] && AllClean(ts)
    ensures SplitBlanks(Join(ts)) == ts
  {
    if |ts| == 1 {
      assert FirstBlank(ts[0]) == |ts[0]|;
      assert ts == [ts[0]];
    } else {
      hide IsBlank;
      SplitJoin(ts[1..]);
      JoinEnds(ts[1..]);
      SplitFirst(ts[0], Join(ts[1..]));
      assert [ts[0]] + ts[1..] == ts;
    }
  }

  lemma SplitFirst(t: string, rest: string)
    requires NoBlank(t) && rest != "" && !IsBlank(rest[0])
    ensures SplitBlanks(t + " " + rest) == [t] + SplitBlanks(rest)
  {
    var s := t + " " + rest;
    assert s == t + (" " + rest);
    FirstBlankAfter(t, " " + rest);
    assert s[..|t|] == t && s[|t| + 1..] == rest;
  }

  lemma {:induction false} TrimEndBlanks(s: string, blanks: string)
    requires s != "" && !IsBlank(s[|s| - 1]) && AllBlank(blanks)
    ensures TrimEnd(s + blanks) == s
    decreases |blanks|
  {
    if blanks == "" {
      assert s + blanks == s;
    } else {
      var shorter := blanks[..|blanks| - 1];
      assert (s + blanks)[..|s + blanks| - 1] == s + shorter;
      TrimEndBlanks(s, shorter);
    }
  }

  /** The token of a name without '=' splits where it was joined. */
  lemma TakeToken(name: string, value: string)
    requires '=' !in name
    ensures var key := IndexOf(Token(name, value), '=');
            key == |name| && Token(name, value)[..key] == name && Token(name, value)[key + 1..] == value
  {
    var t := Token(name, value);
    assert t[|name|] == '=';
    assert forall i :: 0 <= i < |name| ==> t[i] == name[i] && name[i] in name;
  }

  lemma {:induction false} TakePhases(st: Parsed, ps: seq<Phase>)
    requires Printable(ps) && Distinct(ps)
    requires forall p :: p in ps ==> !Named(st.phases, p.name)
    ensures TakeAll(st, PhaseTokens(ps)) == Some(st.(phases := st.phases + ps))
    decreases |ps|
  {
    hide Take, Token, Decimal, Named, PhaseName;
    if ps == [] {
      assert st.phases + ps == st.phases;
    } else {
      var p := ps[0];
      var next := st.(phases := st.phases + [p]);
      assert p in ps;
      TakePhase(st, p);
      StillNew(st.phases, ps);
      TakePhases(next, ps[1..]);
      assert st.phases + [p] + ps[1..] == st.phases + ps;
    }
  }

  lemma TakePhase(st: Parsed, p: Phase)
    requires PhaseName(p.name) && Safe(p.ms) && !Named(st.phases, p.name)
    ensures Take(st, Token(p.name, Decimal(p.ms))) == Some(st.(phases := st.phases + [p]))
  {
    TakeToken(p.name, Decimal(p.ms));
    ParseIntInvertsDecimal(p.ms, "");
    assert Decimal(p.ms) + "" == Decimal(p.ms);
    SetNew(st.phases, p.name, p.ms);
  }

  lemma StillNew(done: seq<Phase>, ps: seq<Phase>)
    requires ps != [] && Distinct(ps) && forall p :: p in ps ==> !Named(done, p.name)
    ensures forall p :: p in ps[1..] ==> !Named(done + [ps[0]], p.name)
  {
    forall p | p in ps[1..]
      ensures !Named(done + [ps[0]], p.name)
    {
      assert p in ps && !Named(done, p.name);
      assert Named(ps[1..], p.name);
      assert forall q :: q in done + [ps[0]] ==> q in done || q == ps[0];
    }
  }

  lemma TakeLine(kind: string, total: int, ps: seq<Phase>)
    requires Safe(total) && Printable(ps) && Distinct(ps)
    ensures TakeAll(BLANK_LINE, Tokens(kind, total, ps)) == Some(Parsed(kind, Finite(total), ps))
  {
    hide Take, Token, Decimal, PhaseTokens, Printable, Distinct, TakeAll;
    var k, t, rest := Token("kind", kind), Token("total", Decimal(total)), PhaseTokens(ps);
    var st1 := BLANK_LINE.(kind := kind);
    var st2 := st1.(total := Finite(total));
    TakeKind(BLANK_LINE, kind);
    TakeTotal(st1, total);
    TakePhases(st2, ps);
    assert st2.phases + ps == ps;
    assert [k, t] + rest == [k] + ([t] + rest);
    TakeAllCons(BLANK_LINE, k, [t] + rest);
    TakeAllCons(st1, t, rest);
  }

  lemma TakeKind(st: Parsed, kind: string)
    ensures Take(st, Token("kind", kind)) == Some(st.(kind := kind))
  {
    TakeToken("kind", kind);
  }

  lemma TakeTotal(st: Parsed, total: int)
    requires Safe(total)
    ensures Take(st, Token("total", Decimal(total))) == Some(st.(total := Finite(total)))
  {
    TakeToken("total", Decimal(total));
    ParseIntInvertsDecimal(total, "");
    assert Decimal(total) + "" == Decimal(total);
  }

  lemma TakeAllCons(st: Parsed, token: string, tokens: seq<string>)
    requires Take(st, token).Some?
    ensures TakeAll(st, [token] + tokens) == TakeAll(Take(st, token).value, tokens)
  {
    assert ([token] + tokens)[1..] == tokens;
  }

  /** The intro does not begin earlier than after the prefix. */
  predicate FreshPrefix(prefix: string) { forall i :: 0 <= i < |prefix| ==> !IntroAt(prefix + INTRO, i) }

  lemma TailOfLine(prefix: string, text: string)
    requires FreshPrefix(prefix)
    ensures PhaseLineTail(prefix + (INTRO + text)) == Some(Trim(text))
  {
    var line := prefix + (INTRO + text);
    assert line[|prefix|..|prefix| + 7] == INTRO;
    assert IntroAt(line, |prefix|);
    forall i | 0 <= i < |prefix|
      ensures !IntroAt(line, i)
    {
      assert !IntroAt(prefix + INTRO, i);
      assert line[i..i + 7] == (prefix + INTRO)[i..i + 7];
    }
    assert line[|prefix| + 7..] == text;
  }

  /**
   * A printed line, after any prefix without an intro of its own and before any blanks, is
   * read back exactly when the kind is not empty and the total not negative; otherwise it is
   * not taken for a phase line. The durations may be any integers that doubles hold.
   */
  lemma PrintedLineReadsBackIff(prefix: string, kind: string, total: int, ps: seq<Phase>, blanks: string)
    requires FreshPrefix(prefix) && AllBlank(blanks)
    requires NoBlank(kind) && Safe(total) && Printable(ps) && Distinct(ps)
    ensures ParsePhaseLine(prefix + (Line(kind, total, ps) + blanks))
            == if kind != "" && total >= 0 then Some(Parsed(kind, Finite(total), ps)) else None
  {
    hide Take, TakeAll, SplitBlanks, Join, Tokens, TrimEnd, PhaseLineTail, Printable, Distinct, AllClean;
    var ts := Tokens(kind, total, ps);
    TokensClean(kind, total, ps);
    JoinEnds(ts);
    assert Line(kind, total, ps) + blanks == INTRO + (Join(ts) + blanks);
    TailOfLine(prefix, Join(ts) + blanks);
    assert SkipBlanks(Join(ts) + blanks) == Join(ts) + blanks;
    TrimEndBlanks(Join(ts), blanks);
    SplitJoin(ts);
    TakeLine(kind, total, ps);
  }
}
