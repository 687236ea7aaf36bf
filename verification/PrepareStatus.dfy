/** The status line of a MAX9296 prepare node and its strict parser.

A line is a list of blank-separated tokens key=value.  Fourteen keys are known;
each must occur once with a value in range, and any other well-formed token is
skipped.  ParseStatus is the program's scan over the line; Accepts says, without
an order, which token lists it accepts and what status they carry.
*/
module PrepareStatus {
  import opened Wrappers

  const EINVAL := 22

  datatype State = Idle | Preparing | Ready | Stale | Consumed | Failed | Expired

  datatype Status = Status(state: State, generation: nat, epoch: nat, mode: string, table: string,
                           width: nat, height: nat, fps: nat, code: nat, enable: nat,
                           lastErrno: int, workerErrno: int, lease: nat, matched: nat)

  datatype Field = FState | FGeneration | FEpoch | FMode | FTable | FWidth | FHeight | FFps
                 | FCode | FEnable | FErrno | FWorkerErrno | FLease | FMatch

  const FIELDS: seq<Field> := [FState, FGeneration, FEpoch, FMode, FTable, FWidth, FHeight, FFps,
                               FCode, FEnable, FErrno, FWorkerErrno, FLease, FMatch]

  datatype Content = Phase(state: State) | Number(number: int) | Text(text: string)

  const MAX_U64 := 0xffff_ffff_ffff_ffff
  const MAX_U32 := 0xffff_ffff
  const MAX_INT := 0x7fff_ffff

  // ----- characters and numbers

  predicate IsSpace(c: char) { c == ' ' || 9 <= c as int <= 13 }

  predicate IsDigit(c: char) { '0' <= c <= '9' }

  predicate IsHexDigit(c: char) { IsDigit(c) || 'a' <= c <= 'f' || 'A' <= c <= 'F' }

  function DigitValue(c: char): nat
    requires IsHexDigit(c)
  {
    if IsDigit(c) then c as nat - '0' as nat
    else if 'a' <= c <= 'f' then c as nat - 'a' as nat + 10
    else c as nat - 'A' as nat + 10
  }

  predicate AllDigits(s: string) { forall k | 0 <= k < |s| :: IsDigit(s[k]) }

  predicate AllHex(s: string) { forall k | 0 <= k < |s| :: IsHexDigit(s[k]) }

  function NumberIn(s: string, base: nat): nat
    requires AllHex(s)
  {
    if s == [] then 0 else base * NumberIn(s[..|s| - 1], base) + DigitValue(s[|s| - 1])
  }

  function Below(n: nat, limit: nat): Option<nat> {
    if n <= limit then Some(n) else None
  }

  /** parse_unsigned: at most 31 characters, decimal, or 0x hexadecimal where a
      code is expected; a value over 64 bits is an overflow. */
  function ParseUnsigned(s: string, code: bool): Option<nat> {
    if |s| == 0 || |s| >= 32 then None
    else if code && |s| > 2 && s[0] == '0' && (s[1] == 'x' || s[1] == 'X') then
      if AllHex(s[2..]) then Below(NumberIn(s[2..], 16), MAX_U64) else None
    else if AllDigits(s) then Below(NumberIn(s, 10), MAX_U64)
    else None
  }

  function ParseUint32(s: string, code: bool): Option<nat> {
    match ParseUnsigned(s, code)
    case None => None
    case Some(n) => Below(n, MAX_U32)
  }

  /** parse_int: an optional minus sign and digits, within the C int range. */
  function ParseInt(s: string): Option<int> {
    if |s| == 0 || |s| >= 32 then None
    else
      var negative := s[0] == '-';
      if negative && |s| == 1 then None
      else
        var digits := if negative then s[1..] else s;
        if !AllDigits(digits) then None
        else
          var n := NumberIn(digits, 10);
          var value: int := if negative then 0 - n as int else n as int;
          if -MAX_INT - 1 <= value <= MAX_INT then Some(value) else None
  }

  function ParseState(s: string): Option<State> {
    if s == "IDLE" then Some(Idle)
    else if s == "PREPARING" then Some(Preparing)
    else if s == "READY" then Some(Ready)
    else if s == "STALE" then Some(Stale)
    else if s == "CONSUMED" then Some(Consumed)
    else if s == "FAILED" then Some(Failed)
    else if s == "EXPIRED" then Some(Expired)
    else None
  }

  /** copy_token into a 16-byte buffer. */
  predicate FitsToken(s: string) { 0 < |s| < 16 }

  // ----- tokens

  function WordLength(line: string): (n: nat)
    ensures n <= |line|
    ensures forall k | 0 <= k < n :: !IsSpace(line[k])
    ensures n < |line| ==> IsSpace(line[n])
  {
    if line == [] || IsSpace(line[0]) then 0 else 1 + WordLength(line[1..])
  }

  /** The maximal runs of non-blank characters, in order. */
  function Tokens(line: string): seq<string>
    decreases |line|
  {
    if line == [] then []
    else if IsSpace(line[0]) then Tokens(line[1..])
    else [line[..WordLength(line)]] + Tokens(line[WordLength(line)..])
  }

  /** The position of the first '=', or the length. */
  function EqualAt(token: string): (n: nat)
    ensures n <= |token| && (forall k | 0 <= k < n :: token[k] != '=')
    ensures n < |token| ==> token[n] == '='
  {
    if token == [] || token[0] == '=' then 0 else 1 + EqualAt(token[1..])
  }

  predicate WellFormed(token: string) { 0 < EqualAt(token) < |token| }

  function Key(token: string): string { token[..EqualAt(token)] }

  function Value(token: string): string
    requires WellFormed(token)
  {
    token[EqualAt(token) + 1..]
  }

  function KeyName(f: Field): string {
    match f
    case FState => "state"
    case FGeneration => "generation"
    case FEpoch => "epoch"
    case FMode => "mode"
    case FTable => "table"
    case FWidth => "width"
    case FHeight => "height"
    case FFps => "fps"
    case FCode => "code"
    case FEnable => "enable"
    case FErrno => "errno"
    case FWorkerErrno => "worker_errno"
    case FLease => "lease"
    case FMatch => "match"
  }

  function FieldOf(key: string): Option<Field> {
    if key == "state" then Some(FState)
    else if key == "generation" then Some(FGeneration)
    else if key == "epoch" then Some(FEpoch)
    else if key == "mode" then Some(FMode)
    else if key == "table" then Some(FTable)
    else if key == "width" then Some(FWidth)
    else if key == "height" then Some(FHeight)
    else if key == "fps" then Some(FFps)
    else if key == "code" then Some(FCode)
    else if key == "enable" then Some(FEnable)
    else if key == "errno" then Some(FErrno)
    else if key == "worker_errno" then Some(FWorkerErrno)
    else if key == "lease" then Some(FLease)
    else if key == "match" then Some(FMatch)
    else None
  }

  /** The known field a token sets, if any. */
  function TokenField(token: string): Option<Field> { FieldOf(Key(token)) }

  // ----- fields of a status

  function NumberContent(n: Option<int>): Option<Content> {
    match n
    case None => None
    case Some(x) => Some(Number(x))
  }

  function FlagContent(n: Option<nat>): Option<Content> {
    if n.Some? && n.value <= 1 then Some(Number(n.value)) else None
  }

  function StateContent(s: Option<State>): Option<Content> {
    match s
    case None => None
    case Some(x) => Some(Phase(x))
  }

  function TextContent(s: string): Option<Content> {
    if FitsToken(s) then Some(Text(s)) else None
  }

  /** The content a value text denotes for a field, if it is valid there. */
  function Parse(f: Field, v: string): Option<Content> {
    match f
    case FState => StateContent(ParseState(v))
    case FGeneration => NumberContent(ParseUnsigned(v, false))
    case FEpoch => NumberContent(ParseUnsigned(v, false))
    case FMode => TextContent(v)
    case FTable => TextContent(v)
    case FCode => NumberContent(ParseUint32(v, true))
    case FErrno => NumberContent(ParseInt(v))
    case FWorkerErrno => NumberContent(ParseInt(v))
    case FLease => FlagContent(ParseUint32(v, false))
    case FMatch => FlagContent(ParseUint32(v, false))
    case _ => NumberContent(ParseUint32(v, false))
  }

  function Get(st: Status, f: Field): Content {
    match f
    case FState => Phase(st.state)
    case FGeneration => Number(st.generation)
    case FEpoch => Number(st.epoch)
    case FMode => Text(st.mode)
    case FTable => Text(st.table)
    case FWidth => Number(st.width)
    case FHeight => Number(st.height)
    case FFps => Number(st.fps)
    case FCode => Number(st.code)
    case FEnable => Number(st.enable)
    case FErrno => Number(st.lastErrno)
    case FWorkerErrno => Number(st.workerErrno)
    case FLease => Number(st.lease)
    case FMatch => Number(st.matched)
  }

  lemma SameGeometry(a: Status, b: Status)
    requires forall f :: Get(a, f) == Get(b, f)
    ensures a.mode == b.mode && a.table == b.table && a.width == b.width && a.height == b.height
    ensures a.fps == b.fps && a.code == b.code && a.enable == b.enable
  {
    assert Get(a, FMode) == Get(b, FMode) && Get(a, FTable) == Get(b, FTable);
    assert Get(a, FWidth) == Get(b, FWidth) && Get(a, FHeight) == Get(b, FHeight);
    assert Get(a, FFps) == Get(b, FFps) && Get(a, FCode) == Get(b, FCode);
    assert Get(a, FEnable) == Get(b, FEnable);
  }

  lemma SameProgress(a: Status, b: Status)
    requires forall f :: Get(a, f) == Get(b, f)
    ensures a.state == b.state && a.generation == b.generation && a.epoch == b.epoch
    ensures a.lastErrno == b.lastErrno && a.workerErrno == b.workerErrno
    ensures a.lease == b.lease && a.matched == b.matched
  {
    assert Get(a, FState) == Get(b, FState) && Get(a, FGeneration) == Get(b, FGeneration);
    assert Get(a, FEpoch) == Get(b, FEpoch) && Get(a, FErrno) == Get(b, FErrno);
    assert Get(a, FWorkerErrno) == Get(b, FWorkerErrno) && Get(a, FLease) == Get(b, FLease);
    assert Get(a, FMatch) == Get(b, FMatch);
  }

  /** A status is its fourteen fields. */
  lemma SameFieldsSameStatus(a: Status, b: Status)
    requires forall f :: Get(a, f) == Get(b, f)
    ensures a == b
  {
    hide Get;
    SameGeometry(a, b);
    SameProgress(a, b);
  }

  // ----- acceptance without an order

  /** Position i holds the only token for field f, and it carries st's value. */
  ghost predicate OnlyAt(tokens: seq<string>, f: Field, i: nat, st: Status) {
    && i < |tokens|
    && TokenField(tokens[i]) == Some(f)
    && WellFormed(tokens[i])
    && Parse(f, Value(tokens[i])) == Some(Get(st, f))
    && forall j: nat | j < |tokens| && TokenField(tokens[j]) == Some(f) :: j == i
  }

  ghost predicate HasField(tokens: seq<string>, f: Field, st: Status) {
    exists i: nat :: OnlyAt(tokens, f, i, st)
  }

  ghost predicate Lacks(tokens: seq<string>, f: Field) {
    forall t | t in tokens :: TokenField(t) != Some(f)
  }

  ghost predicate AllWellFormed(tokens: seq<string>) {
    forall t | t in tokens :: WellFormed(t)
  }

  /** The status a token list denotes: every token is key=value, and every field
      is set by exactly one token, to st's value. */
  ghost predicate Accepts(tokens: seq<string>, st: Status) {
    AllWellFormed(tokens) && forall f :: HasField(tokens, f, st)
  }

  ghost predicate Acceptable(line: string) { exists st :: Accepts(Tokens(line), st) }

  /** A token list denotes at most one status. */
  lemma AcceptsOneStatus(tokens: seq<string>, a: Status, b: Status)
    requires Accepts(tokens, a) && Accepts(tokens, b)
    ensures a == b
  {
    hide Parse, Get, TokenField, WellFormed;
    forall f
      ensures Get(a, f) == Get(b, f)
    {
      assert HasField(tokens, f, a) && HasField(tokens, f, b);
      var i: nat :| OnlyAt(tokens, f, i, a);
      var j: nat :| OnlyAt(tokens, f, j, b);
      assert i == j;
    }
    SameFieldsSameStatus(a, b);
  }

  /** Two positions with one value, exactly when the multiset holds it twice. */
  lemma TwoPositionsCountTwice(s: seq<string>, j: nat, k: nat)
    requires j < k < |s| && s[j] == s[k]
    ensures multiset(s)[s[j]] >= 2
  {
    assert s == s[..j] + [s[j]] + s[j + 1..k] + [s[k]] + s[k + 1..];
  }

  lemma OnePositionCountsOnce(s: seq<string>, i: nat)
    requires i < |s| && forall j: nat | j < |s| && s[j] == s[i] :: j == i
    ensures multiset(s)[s[i]] == 1
  {
    assert s == s[..i] + [s[i]] + s[i + 1..];
    assert s[i] !in s[..i] && s[i] !in s[i + 1..];
  }

  lemma PermutedField(a: seq<string>, b: seq<string>, f: Field, st: Status)
    requires multiset(a) == multiset(b) && HasField(a, f, st)
    ensures HasField(b, f, st)
  {
    hide Parse, Get, TokenField, WellFormed;
    var i: nat :| OnlyAt(a, f, i, st);
    var t := a[i];
    OnePositionCountsOnce(a, i);
    assert t in multiset(b) && t in b;
    var j: nat :| j < |b| && b[j] == t;
    forall k: nat | k < |b| && TokenField(b[k]) == Some(f)
      ensures k == j
    {
      assert b[k] in multiset(b) && b[k] in multiset(a) && b[k] in a;
      var m: nat :| m < |a| && a[m] == b[k];
      assert m == i;
      if k < j { TwoPositionsCountTwice(b, k, j); }
      if j < k { TwoPositionsCountTwice(b, j, k); }
    }
    assert OnlyAt(b, f, j, st);
  }

  /** The order of the tokens does not matter. */
  lemma OrderDoesNotMatter(a: seq<string>, b: seq<string>, st: Status)
    requires multiset(a) == multiset(b)
    ensures Accepts(a, st) <==> Accepts(b, st)
  {
    hide Parse, Get, TokenField, WellFormed;
    forall t
      ensures t in a <==> t in b
    {
      assert t in a <==> t in multiset(a);
      assert t in b <==> t in multiset(b);
    }
    forall f
      ensures HasField(a, f, st) <==> HasField(b, f, st)
    {
      if HasField(a, f, st) { PermutedField(a, b, f, st); }
      if HasField(b, f, st) { PermutedField(b, a, f, st); }
    }
  }

  // ----- the scan

  /** What the scan has established after the tokens done. */
  ghost predicate Progress(done: seq<string>, seen: set<Field>, parsed: Status) {
    && AllWellFormed(done)
    && (forall f | f in seen :: HasField(done, f, parsed))
    && (forall f | f !in seen :: Lacks(done, f))
  }

  /** In an accepted list, any token for a field is that field's only token. */
  lemma AcceptedField(tokens: seq<string>, st: Status, f: Field, i: nat)
    requires Accepts(tokens, st) && i < |tokens| && TokenField(tokens[i]) == Some(f)
    ensures OnlyAt(tokens, f, i, st)
  {
    hide WellFormed, TokenField, Parse, Get;
    assert HasField(tokens, f, st);
    var k: nat :| OnlyAt(tokens, f, k, st);
    assert i == k;
  }

  lemma MalformedRejects(tokens: seq<string>, i: nat)
    requires i < |tokens| && !WellFormed(tokens[i])
    ensures forall st :: !Accepts(tokens, st)
  {
    hide WellFormed, HasField;
    assert tokens[i] in tokens;
  }

  lemma RepeatedRejects(done: seq<string>, seen: set<Field>, parsed: Status, token: string, rest: seq<string>, f: Field)
    requires Progress(done, seen, parsed) && f in seen && TokenField(token) == Some(f)
    ensures forall st :: !Accepts(done + [token] + rest, st)
  {
    hide WellFormed, TokenField, Parse, Get, Accepts;
    var tokens := done + [token] + rest;
    assert HasField(done, f, parsed);
    var i: nat :| OnlyAt(done, f, i, parsed);
    assert tokens[i] == done[i] && tokens[|done|] == token;
    forall st
      ensures !Accepts(tokens, st)
    {
      if Accepts(tokens, st) { AcceptedField(tokens, st, f, i); }
    }
  }

  lemma InvalidRejects(tokens: seq<string>, i: nat, f: Field)
    requires i < |tokens| && WellFormed(tokens[i]) && TokenField(tokens[i]) == Some(f)
    requires Parse(f, Value(tokens[i])) == None
    ensures forall st :: !Accepts(tokens, st)
  {
    hide WellFormed, TokenField, Parse, Get, Accepts;
    forall st
      ensures !Accepts(tokens, st)
    {
      if Accepts(tokens, st) { AcceptedField(tokens, st, f, i); }
    }
  }

  lemma MissingRejects(tokens: seq<string>, f: Field)
    requires Lacks(tokens, f)
    ensures forall st :: !Accepts(tokens, st)
  {
    hide WellFormed, TokenField, Parse, Get;
    assert forall i | 0 <= i < |tokens| :: tokens[i] in tokens;
    forall st
      ensures !Accepts(tokens, st)
    {
      assert !HasField(tokens, f, st);
    }
  }

  lemma FieldKept(done: seq<string>, token: string, f: Field, before: Status, after: Status)
    requires HasField(done, f, before) && TokenField(token) != Some(f) && Get(before, f) == Get(after, f)
    ensures HasField(done + [token], f, after)
  {
    hide WellFormed, TokenField, Parse, Get;
    var k: nat :| OnlyAt(done, f, k, before);
    assert OnlyAt(done + [token], f, k, after);
  }

  lemma FieldSet(done: seq<string>, token: string, f: Field, st: Status)
    requires Lacks(done, f) && TokenField(token) == Some(f) && WellFormed(token)
    requires Parse(f, Value(token)) == Some(Get(st, f))
    ensures HasField(done + [token], f, st)
  {
    hide WellFormed, TokenField, Parse, Get;
    var tokens := done + [token];
    assert forall j: nat | j < |done| :: tokens[j] == done[j] && done[j] in done;
    assert OnlyAt(tokens, f, |done|, st);
  }

  lemma Skips(done: seq<string>, token: string, seen: set<Field>, parsed: Status)
    requires Progress(done, seen, parsed) && WellFormed(token) && TokenField(token) == None
    ensures Progress(done + [token], seen, parsed)
  {
    hide WellFormed, TokenField, HasField, Get;
    forall f | f in seen
      ensures HasField(done + [token], f, parsed)
    {
      FieldKept(done, token, f, parsed, parsed);
    }
  }

  lemma Reads(done: seq<string>, token: string, f: Field, seen: set<Field>, before: Status, after: Status)
    requires Progress(done, seen, before) && WellFormed(token) && TokenField(token) == Some(f) && f !in seen
    requires Parse(f, Value(token)) == Some(Get(after, f))
    requires forall g | g != f :: Get(after, g) == Get(before, g)
    ensures Progress(done + [token], seen + {f}, after)
  {
    hide WellFormed, TokenField, HasField, Get, Parse;
    forall g | g in seen + {f}
      ensures HasField(done + [token], g, after)
    {
      if g == f { FieldSet(done, token, f, after); } else { FieldKept(done, token, g, before, after); }
    }
  }

  function WithNumber(n: Option<nat>, store: nat -> Status): Option<Status> {
    match n
    case None => None
    case Some(x) => Some(store(x))
  }

  /** The scan's switch over the known fields. */
  function ReadField(st: Status, f: Field, v: string): Option<Status> {
    match f
    case FState => (match ParseState(v) case None => None case Some(x) => Some(st.(state := x)))
    case FGeneration => WithNumber(ParseUnsigned(v, false), (n: nat) => st.(generation := n))
    case FEpoch => WithNumber(ParseUnsigned(v, false), (n: nat) => st.(epoch := n))
    case FMode => if FitsToken(v) then Some(st.(mode := v)) else None
    case FTable => if FitsToken(v) then Some(st.(table := v)) else None
    case FWidth => WithNumber(ParseUint32(v, false), (n: nat) => st.(width := n))
    case FHeight => WithNumber(ParseUint32(v, false), (n: nat) => st.(height := n))
    case FFps => WithNumber(ParseUint32(v, false), (n: nat) => st.(fps := n))
    case FCode => WithNumber(ParseUint32(v, true), (n: nat) => st.(code := n))
    case FEnable => WithNumber(ParseUint32(v, false), (n: nat) => st.(enable := n))
    case FErrno => (match ParseInt(v) case None => None case Some(x) => Some(st.(lastErrno := x)))
    case FWorkerErrno => (match ParseInt(v) case None => None case Some(x) => Some(st.(workerErrno := x)))
    case FLease =>
      var n := ParseUint32(v, false);
      if n.Some? && n.value <= 1 then Some(st.(lease := n.value)) else None
    case FMatch =>
      var n := ParseUint32(v, false);
      if n.Some? && n.value <= 1 then Some(st.(matched := n.value)) else None
  }

  /** The switch fails exactly when the value is not valid for the field, and
      otherwise sets that field to the value's content and no other. */
  lemma ReadFieldSetsOneField(st: Status, f: Field, v: string)
    ensures ReadField(st, f, v) == None <==> Parse(f, v) == None
    ensures ReadField(st, f, v).Some? ==> Parse(f, v) == Some(Get(ReadField(st, f, v).value, f))
    ensures ReadField(st, f, v).Some? ==> forall g | g != f :: Get(ReadField(st, f, v).value, g) == Get(st, g)
  {
    hide ParseState, ParseUnsigned, ParseUint32, ParseInt, FitsToken;
  }

  lemma {:induction false} WordLengthIs(s: string, n: nat)
    requires n <= |s| && (forall k | 0 <= k < n :: !IsSpace(s[k])) && (n < |s| ==> IsSpace(s[n]))
    ensures WordLength(s) == n
  {
    if n > 0 { WordLengthIs(s[1..], n - 1); }
  }

  lemma WordIsToken(line: string, start: nat, end: nat)
    requires start < end <= |line|
    requires forall k | start <= k < end :: !IsSpace(line[k])
    requires end < |line| ==> IsSpace(line[end])
    ensures Tokens(line[start..]) == [line[start..end]] + Tokens(line[end..])
  {
    var s := line[start..];
    WordLengthIs(s, end - start);
    assert s[..end - start] == line[start..end] && s[end - start..] == line[end..];
  }

  lemma {:induction false} EqualAtIs(token: string, n: nat)
    requires n <= |token| && (forall k | 0 <= k < n :: token[k] != '=') && (n < |token| ==> token[n] == '=')
    ensures EqualAt(token) == n
  {
    if n > 0 { EqualAtIs(token[1..], n - 1); }
  }

  const BLANK := Status(Idle, 0, 0, "", "", 0, 0, 0, 0, 0, 0, 0, 0, 0)

  /** The end of the blanks from an offset on. */
  method SkipBlanks(line: string, from: nat) returns (offset: nat)
    requires from <= |line|
    ensures from <= offset <= |line| && (offset < |line| ==> !IsSpace(line[offset]))
    ensures Tokens(line[offset..]) == Tokens(line[from..])
  {
    offset := from;
    while offset < |line| && IsSpace(line[offset])
      invariant from <= offset <= |line|
      invariant Tokens(line[offset..]) == Tokens(line[from..])
    {
      assert line[offset..][1..] == line[offset + 1..];
      offset := offset + 1;
    }
  }

  /** The end of the word from an offset on. */
  method SkipWord(line: string, start: nat) returns (offset: nat)
    requires start < |line| && !IsSpace(line[start])
    ensures start < offset <= |line|
    ensures Tokens(line[start..]) == [line[start..offset]] + Tokens(line[offset..])
  {
    offset := start;
    while offset < |line| && !IsSpace(line[offset])
      invariant start <= offset <= |line|
      invariant forall k | start <= k < offset :: !IsSpace(line[k])
    {
      offset := offset + 1;
    }
    WordIsToken(line, start, offset);
  }

  method FindEqual(token: string) returns (equal: nat)
    ensures equal == EqualAt(token)
  {
    equal := 0;
    while equal < |token| && token[equal] != '='
      invariant equal <= |token| && forall k | 0 <= k < equal :: token[k] != '='
    {
      equal := equal + 1;
    }
    EqualAtIs(token, equal);
  }

  /** The whole parser: success exactly for the accepted lines, with the one
      status they denote; on rejection the caller's status is left as it was. */
  method ParseStatus(line: string, status: Status) returns (rc: int, result: Status)
    ensures rc == 0 <==> Acceptable(line)
    ensures rc == 0 ==> Accepts(Tokens(line), result)
    ensures rc != 0 ==> rc == -EINVAL && result == status
  {
    hide WellFormed, TokenField, Accepts, Parse, Get, HasField, ReadField, Progress;
    var parsed := BLANK;
    var seen: set<Field> := {};
    var offset := 0;
    ghost var done: seq<string> := [];
    assert line[0..] == line;
    StartOfScan(parsed);
    while offset < |line|
      invariant offset <= |line| && Tokens(line) == done + Tokens(line[offset..])
      invariant Progress(done, seen, parsed)
    {
      var start := SkipBlanks(line, offset);
      if start == |line| {
        offset := start;
        break;
      }
      offset := SkipWord(line, start);
      var token := line[start..offset];
      ghost var rest := Tokens(line[offset..]);
      assert Tokens(line) == done + [token] + rest;
      var equal := FindEqual(token);
      assert WellFormed(token) == (0 < equal < |token|) by { WellFormedIs(token); }
      if equal == 0 || equal == |token| {
        MalformedRejects(Tokens(line), |done|);
        return -EINVAL, status;
      }
      var field := FieldOf(token[..equal]);
      assert field == TokenField(token) by { TokenFieldIs(token); }
      if field == None {
        Skips(done, token, seen, parsed);
        done := done + [token];
        continue;
      }
      var f := field.value;
      if f in seen {
        RepeatedRejects(done, seen, parsed, token, rest, f);
        return -EINVAL, status;
      }
      var next := ReadField(parsed, f, token[equal + 1..]);
      ReadFieldSetsOneField(parsed, f, token[equal + 1..]);
      if next == None {
        InvalidRejects(Tokens(line), |done|, f);
        return -EINVAL, status;
      }
      Reads(done, token, f, seen, parsed, next.value);
      parsed, seen, done := next.value, seen + {f}, done + [token];
    }
    assert done == Tokens(line) by { assert line[offset..] == []; }
    var k := 0;
    while k < |FIELDS|
      invariant k <= |FIELDS| && forall i | 0 <= i < k :: FIELDS[i] in seen
    {
      if FIELDS[k] !in seen {
        MissingIsLacking(done, seen, parsed, FIELDS[k]);
        return -EINVAL, status;
      }
      k := k + 1;
    }
    AllSeenAccepts(done, seen, parsed);
    return 0, parsed;
  }

  lemma StartOfScan(parsed: Status)
    ensures Progress([], {}, parsed)
  {
  }

  lemma WellFormedIs(token: string)
    ensures WellFormed(token) == (0 < EqualAt(token) < |token|)
  {
  }

  lemma TokenFieldIs(token: string)
    ensures TokenField(token) == FieldOf(token[..EqualAt(token)])
  {
    hide FieldOf;
  }

  lemma MissingIsLacking(done: seq<string>, seen: set<Field>, parsed: Status, f: Field)
    requires Progress(done, seen, parsed) && f !in seen
    ensures forall st :: !Accepts(done, st)
  {
    hide Accepts;
    MissingRejects(done, f);
  }

  lemma AllSeenAccepts(done: seq<string>, seen: set<Field>, parsed: Status)
    requires Progress(done, seen, parsed) && forall i | 0 <= i < |FIELDS| :: FIELDS[i] in seen
    ensures Accepts(done, parsed)
  {
    hide HasField;
    forall f
      ensures f in seen
    {
      FieldPosition(f);
    }
  }

  function Position(f: Field): (i: nat)
    ensures i < |FIELDS| && FIELDS[i] == f
  {
    match f
    case FState => 0
    case FGeneration => 1
    case FEpoch => 2
    case FMode => 3
    case FTable => 4
    case FWidth => 5
    case FHeight => 6
    case FFps => 7
    case FCode => 8
    case FEnable => 9
    case FErrno => 10
    case FWorkerErrno => 11
    case FLease => 12
    case FMatch => 13
  }

  lemma FieldPosition(f: Field)
    ensures exists i :: 0 <= i < |FIELDS| && FIELDS[i] == f
  {
    assert FIELDS[Position(f)] == f;
  }

  // ----- the canonical print

  function HexDigit(d: nat): (c: char)
    requires d < 16
    ensures IsHexDigit(c) && DigitValue(c) == d && (d < 10 ==> IsDigit(c))
  {
    if d < 10 then '0' + d as char else 'a' + (d - 10) as char
  }

  function Numeral(n: nat, base: nat): (s: string)
    requires base == 10 || base == 16
    ensures s != []
  {
    if n < base then [HexDigit(n)] else Numeral(n / base, base) + [HexDigit(n % base)]
  }

  lemma {:induction false} NumeralDigits(n: nat, base: nat)
    requires base == 10 || base == 16
    ensures AllHex(Numeral(n, base)) && (base == 10 ==> AllDigits(Numeral(n, base)))
  {
    hide HexDigit, IsHexDigit, IsDigit, DigitValue;
    if n >= base { NumeralDigits(n / base, base); }
  }

  lemma {:induction false} NumeralValue(n: nat, base: nat)
    requires base == 10 || base == 16
    requires AllHex(Numeral(n, base))
    ensures NumberIn(Numeral(n, base), base) == n
  {
    hide HexDigit, IsHexDigit, IsDigit, DigitValue;
    var s := Numeral(n, base);
    var last := |s| - 1;
    if n < base {
      assert s[..last] == [] && s[last] == HexDigit(n);
    } else {
      assert s[..last] == Numeral(n / base, base) && s[last] == HexDigit(n % base);
      NumeralDigits(n / base, base);
      NumeralValue(n / base, base);
    }
  }

  function Power(base: nat, k: nat): nat { if k == 0 then 1 else base * Power(base, k - 1) }

  lemma {:induction false} NumeralIsShort(n: nat, base: nat, k: nat)
    requires base == 10 || base == 16
    requires 0 < k && n < Power(base, k)
    ensures |Numeral(n, base)| <= k
  {
    hide HexDigit;
    if n >= base {
      var p := Power(base, k - 1);
      if base == 10 { assert n / 10 < p; } else { assert n / 16 < p; }
      NumeralIsShort(n / base, base, k - 1);
    }
  }

  lemma Powers()
    ensures Power(10, 10) == 10000000000 && Power(10, 20) == 100000000000000000000 && Power(16, 8) == 4294967296
  {
    assert Power(10, 10) == 10000000000;
    assert Power(16, 4) == 65536;
  }

  function Name(s: State): string {
    match s
    case Idle => "IDLE"
    case Preparing => "PREPARING"
    case Ready => "READY"
    case Stale => "STALE"
    case Consumed => "CONSUMED"
    case Failed => "FAILED"
    case Expired => "EXPIRED"
  }

  function IntText(n: int): string { if n < 0 then "-" + Numeral(-n, 10) else Numeral(n, 10) }

  /** The text printed for a field: the code in hexadecimal, other numbers in decimal. */
  function FieldText(st: Status, f: Field): string {
    match f
    case FState => Name(st.state)
    case FMode => st.mode
    case FTable => st.table
    case FGeneration => Numeral(st.generation, 10)
    case FEpoch => Numeral(st.epoch, 10)
    case FWidth => Numeral(st.width, 10)
    case FHeight => Numeral(st.height, 10)
    case FFps => Numeral(st.fps, 10)
    case FCode => "0x" + Numeral(st.code, 16)
    case FEnable => Numeral(st.enable, 10)
    case FErrno => IntText(st.lastErrno)
    case FWorkerErrno => IntText(st.workerErrno)
    case FLease => Numeral(st.lease, 10)
    case FMatch => Numeral(st.matched, 10)
  }

  /** The statuses the fixed-width fields of the C structure can hold. */
  predicate Representable(st: Status) {
    && st.generation <= MAX_U64 && st.epoch <= MAX_U64
    && st.width <= MAX_U32 && st.height <= MAX_U32 && st.fps <= MAX_U32
    && st.code <= MAX_U32 && st.enable <= MAX_U32
    && -MAX_INT - 1 <= st.lastErrno <= MAX_INT && -MAX_INT - 1 <= st.workerErrno <= MAX_INT
    && st.lease <= 1 && st.matched <= 1
    && FitsToken(st.mode) && NoBlank(st.mode) && FitsToken(st.table) && NoBlank(st.table)
  }

  predicate NoBlank(s: string) { forall k | 0 <= k < |s| :: !IsSpace(s[k]) }

  function Token(st: Status, f: Field): string { KeyName(f) + "=" + FieldText(st, f) }

  function Join(tokens: seq<string>): string {
    if tokens == [] then "\n" else if |tokens| == 1 then tokens[0] + "\n" else tokens[0] + " " + Join(tokens[1..])
  }

  /** One line with all the fields in their order, separated by single blanks. */
  function Print(st: Status): string { Join(seq(|FIELDS|, i requires 0 <= i < |FIELDS| => Token(st, FIELDS[i]))) }

  lemma {:induction false} TokensOfJoin(tokens: seq<string>)
    requires forall t | t in tokens :: t != [] && NoBlank(t)
    ensures Tokens(Join(tokens)) == tokens
  {
    if tokens == [] {
      assert Tokens("\n") == Tokens("\n"[1..]);
    } else {
      var t := tokens[0];
      assert t in tokens;
      var line := Join(tokens);
      assert line[0..] == line && line[..|t|] == t && line[0..|t|] == t;
      assert forall k | 0 <= k < |t| :: line[k] == t[k];
      WordIsToken(line, 0, |t|);
      var rest := line[|t|..];
      assert IsSpace(rest[0]);
      assert Tokens(rest) == Tokens(rest[1..]);
      if |tokens| == 1 {
        assert rest[1..] == [];
      } else {
        assert rest[1..] == Join(tokens[1..]);
        assert forall u | u in tokens[1..] :: u in tokens;
        TokensOfJoin(tokens[1..]);
        assert [t] + tokens[1..] == tokens;
      }
    }
  }

  lemma NumeralParses(n: nat)
    requires n <= MAX_U64
    ensures ParseUnsigned(Numeral(n, 10), false) == Some(n)
    ensures NoBlank(Numeral(n, 10))
  {
    assert Power(10, 10) == 10000000000;
    assert Power(10, 20) == 100000000000000000000;
    NumeralIsShort(n, 10, 20);
    NumeralDigits(n, 10);
    NumeralValue(n, 10);
  }

  /** Decimal numbers of any size are read exactly or, beyond the field's width, refused. */
  lemma NumbersExactOrRefused(n: nat)
    ensures ParseUnsigned(Numeral(n, 10), false) == (if n <= MAX_U64 then Some(n) else None)
    ensures ParseUint32(Numeral(n, 10), false) == (if n <= MAX_U32 then Some(n) else None)
  {
    NumeralDigits(n, 10);
    NumeralValue(n, 10);
    if n <= MAX_U64 { NumeralParses(n); }
  }

  /** Leading zeros do not count, but a number longer than 31 digits is refused. */
  lemma LeadingZeros(zeros: nat, n: nat)
    ensures var s := seq(zeros, _ => '0') + Numeral(n, 10);
            ParseUnsigned(s, false) == if |s| <= 31 && n <= 0xffff_ffff_ffff_ffff then Some(n) else None
  {
    hide HexDigit, Numeral;
    var digits := Numeral(n, 10);
    NumeralDigits(n, 10);
    NumeralValue(n, 10);
    ZerosAddNothing(zeros, digits);
  }

  lemma {:induction false} ZerosAddNothing(zeros: nat, s: string)
    requires AllDigits(s)
    ensures var t := seq(zeros, _ => '0') + s;
            AllDigits(t) && AllHex(t) && AllHex(s) && NumberIn(t, 10) == NumberIn(s, 10)
    decreases |s|, zeros
  {
    var t := seq(zeros, _ => '0') + s;
    assert forall k | 0 <= k < |t| :: t[k] == if k < zeros then '0' else s[k - zeros];
    if s != [] {
      var front := s[..|s| - 1];
      ZerosAddNothing(zeros, front);
      assert t[..|t| - 1] == seq(zeros, _ => '0') + front;
    } else if zeros > 0 {
      ZerosAddNothing(zeros - 1, s);
      assert t[..|t| - 1] == seq((zeros - 1) as nat, _ => '0') + s;
    }
  }

  /** Any character that is not a digit makes a decimal number unreadable. */
  lemma OtherCharactersRefuse(s: string, i: nat)
    requires i < |s| && (s[i] < '0' || '9' < s[i])
    ensures ParseUnsigned(s, false) == None && ParseUint32(s, false) == None
    ensures i > 0 || s[0] != '-' ==> ParseInt(s) == None
  {
    if i > 0 { assert s[1..][i - 1] == s[i]; }
  }

  /** A code is decimal unless it starts with 0x: then it is hexadecimal, with digits of
      either case. */
  lemma CodesExactOrRefused(n: nat, x: char)
    requires x == 'x' || x == 'X'
    ensures ParseUint32(Numeral(n, 10), true) == if n <= 0xffff_ffff then Some(n) else None
    ensures n <= 0xffff_ffff ==> ParseUint32(['0', x] + Numeral(n, 16), true) == Some(n)
    ensures n <= 0xffff_ffff ==> ParseUint32(['0', x] + UpperCase(Numeral(n, 16)), true) == Some(n)
    ensures ParseUint32(['0', x] + Numeral(n, 16), false) == None
  {
    hide Numeral;
    NumbersExactOrRefused(n);
    NumeralDigits(n, 10);
    NumeralDigits(n, 16);
    NumeralValue(n, 16);
    var text, upper := ['0', x] + Numeral(n, 16), ['0', x] + UpperCase(Numeral(n, 16));
    assert text[2..] == Numeral(n, 16) && upper[2..] == UpperCase(Numeral(n, 16));
    UpperCaseValue(Numeral(n, 16));
    OtherCharactersRefuse(text, 1);
    if n <= 0xffff_ffff {
      Powers();
      NumeralIsShort(n, 16, 8);
    }
  }

  function UpperCase(s: string): string
    requires AllHex(s)
  {
    seq(|s|, i requires 0 <= i < |s| => if 'a' <= s[i] <= 'f' then s[i] - ' ' else s[i])
  }

  lemma {:induction false} UpperCaseValue(s: string)
    requires AllHex(s)
    ensures |UpperCase(s)| == |s| && AllHex(UpperCase(s)) && NumberIn(UpperCase(s), 16) == NumberIn(s, 16)
  {
    var t := UpperCase(s);
    if s != [] {
      UpperCaseValue(s[..|s| - 1]);
      assert t[..|t| - 1] == UpperCase(s[..|s| - 1]);
    }
  }

  /** The range of every number field and the length of the text fields. */
  lemma FieldRanges(n: nat, text: string)
    ensures forall f | f in {FWidth, FHeight, FFps, FEnable, FCode} ::
              Parse(f, Numeral(n, 10)) == if n <= 0xffff_ffff then Some(Number(n)) else None
    ensures forall f | f in {FGeneration, FEpoch} ::
              Parse(f, Numeral(n, 10)) == if n <= 0xffff_ffff_ffff_ffff then Some(Number(n)) else None
    ensures forall f | f in {FLease, FMatch} ::
              Parse(f, Numeral(n, 10)) == if n == 0 || n == 1 then Some(Number(n)) else None
    ensures forall f | f in {FMode, FTable} ::
              Parse(f, text) == if 1 <= |text| <= 15 then Some(Text(text)) else None
  {
    hide Numeral, ParseUnsigned;
    NumbersExactOrRefused(n);
    CodesExactOrRefused(n, 'x');
  }

  lemma CodeParses(n: nat)
    requires n <= MAX_U32
    ensures ParseUint32("0x" + Numeral(n, 16), true) == Some(n)
    ensures NoBlank("0x" + Numeral(n, 16))
  {
    assert Power(16, 4) == 65536;
    assert Power(16, 8) == 4294967296;
    NumeralIsShort(n, 16, 8);
    NumeralDigits(n, 16);
    NumeralValue(n, 16);
    var s := "0x" + Numeral(n, 16);
    assert s[2..] == Numeral(n, 16);
  }

  lemma IntParses(n: int)
    requires -MAX_INT - 1 <= n <= MAX_INT
    ensures ParseInt(IntText(n)) == Some(n)
    ensures IntText(n) != [] && NoBlank(IntText(n))
  {
    assert Power(10, 10) == 10000000000;
    var m: nat := if n < 0 then -n else n;
    NumeralIsShort(m, 10, 10);
    NumeralDigits(m, 10);
    NumeralValue(m, 10);
    if n < 0 { assert IntText(n)[1..] == Numeral(m, 10); }
  }

  lemma IntsExactOrRefused(n: int)
    ensures ParseInt(IntText(n)) == if -MAX_INT - 1 <= n <= MAX_INT then Some(n) else None
  {
    if -MAX_INT - 1 <= n <= MAX_INT {
      IntParses(n);
    } else {
      var m: nat := if n < 0 then -n else n;
      NumeralDigits(m, 10);
      NumeralValue(m, 10);
      if n < 0 { assert IntText(n)[1..] == Numeral(m, 10); } else { assert Numeral(m, 10)[0] != '-'; }
    }
  }

  lemma StateParses(s: State)
    ensures ParseState(Name(s)) == Some(s)
    ensures forall text :: ParseState(text) == Some(s) <==> text == Name(s)
    ensures Name(s) != [] && NoBlank(Name(s))
  {
  }

  lemma FieldTextParses(st: Status, f: Field)
    requires Representable(st)
    ensures Parse(f, FieldText(st, f)) == Some(Get(st, f))
    ensures FieldText(st, f) != [] && NoBlank(FieldText(st, f))
  {
    hide ParseState, ParseUnsigned, ParseInt, NoBlank, IntText, Name, Numeral;
    match f
    case FState => StateParses(st.state);
    case FMode =>
    case FTable =>
    case FGeneration => NumeralParses(st.generation);
    case FEpoch => NumeralParses(st.epoch);
    case FWidth => NumeralParses(st.width);
    case FHeight => NumeralParses(st.height);
    case FFps => NumeralParses(st.fps);
    case FCode => CodeParses(st.code);
    case FEnable => NumeralParses(st.enable);
    case FErrno => IntParses(st.lastErrno);
    case FWorkerErrno => IntParses(st.workerErrno);
    case FLease => NumeralParses(st.lease);
    case FMatch => NumeralParses(st.matched);
  }

  lemma KeyIsFound(f: Field, key: string)
    ensures FieldOf(key) == Some(f) <==> key == KeyName(f)
  {
    hide FieldOf, KeyName;
    KeyOfField(f);
    if FieldOf(key) == Some(f) { FieldOfKey(f, key); }
  }

  lemma KeyOfField(f: Field)
    ensures FieldOf(KeyName(f)) == Some(f)
  {
  }

  lemma FieldOfKey(f: Field, key: string)
    requires FieldOf(key) == Some(f)
    ensures key == KeyName(f)
  {
  }

  /** A token whose key is none of the fourteen may stand anywhere in the line. */
  lemma UnknownTokenIsSkipped(tokens: seq<string>, more: seq<string>, key: string, value: string, st: Status)
    requires key != "" && '=' !in key && forall f :: key != KeyName(f)
    requires multiset(more) == multiset(tokens) + multiset{key + "=" + value}
    ensures Accepts(more, st) <==> Accepts(tokens, st)
  {
    hide Parse, Get, FieldOf, KeyName, TokenField, WellFormed;
    var t := key + "=" + value;
    var last := tokens + [t];
    UnknownToken(key, value);
    OrderDoesNotMatter(more, last, st);
    assert t in last && forall u :: u in last <==> u in tokens || u == t;
    forall f
      ensures HasField(last, f, st) <==> HasField(tokens, f, st)
    {
      if HasField(last, f, st) {
        var i: nat :| OnlyAt(last, f, i, st);
        assert last[i] != t && forall j: nat | j < |tokens| :: last[j] == tokens[j];
        assert OnlyAt(tokens, f, i, st);
      }
      if HasField(tokens, f, st) {
        var i: nat :| OnlyAt(tokens, f, i, st);
        assert last[i] == tokens[i];
        assert forall j: nat | j < |last| :: last[j] == if j < |tokens| then tokens[j] else t;
        assert OnlyAt(last, f, i, st);
      }
    }
  }

  lemma UnknownToken(key: string, value: string)
    requires key != "" && '=' !in key && forall f :: key != KeyName(f)
    ensures WellFormed(key + "=" + value) && TokenField(key + "=" + value) == None
  {
    hide FieldOf, KeyName;
    var t := key + "=" + value;
    assert forall k | 0 <= k < |key| :: t[k] == key[k] && key[k] in key;
    EqualAtIs(t, |key|);
    assert t[..|key|] == key;
    if FieldOf(key).Some? { KeyIsFound(FieldOf(key).value, key); }
  }

  // ----- spacing

  /** The six blank characters of the C locale. */
  predicate Blanks(s: string) { forall k | 0 <= k < |s| :: s[k] as int in {9, 10, 11, 12, 13, 32} }

  /** The tokens with these gaps before, between and after them. */
  function Spaced(tokens: seq<string>, gaps: seq<string>): string
    requires |gaps| == |tokens| + 1
  {
    if tokens == [] then gaps[0] else gaps[0] + (tokens[0] + Spaced(tokens[1..], gaps[1..]))
  }

  predicate Word(t: string) { t != "" && forall k | 0 <= k < |t| :: t[k] as int !in {9, 10, 11, 12, 13, 32} }

  lemma {:induction false} GapIsSkipped(gap: string, rest: string)
    requires Blanks(gap)
    ensures Tokens(gap + rest) == Tokens(rest)
  {
    if gap == "" {
      assert gap + rest == rest;
    } else {
      GapIsSkipped(gap[1..], rest);
      assert (gap + rest)[1..] == gap[1..] + rest;
    }
  }

  /** Any blanks separate the tokens, and none are needed before the first or after the
      last. */
  lemma {:induction false} BlanksSeparate(tokens: seq<string>, gaps: seq<string>)
    requires |gaps| == |tokens| + 1 && (forall t | t in tokens :: Word(t))
    requires forall i | 0 <= i <= |tokens| :: Blanks(gaps[i]) && (0 < i < |tokens| ==> gaps[i] != "")
    ensures Tokens(Spaced(tokens, gaps)) == tokens
    decreases |tokens|
  {
    if tokens == [] {
      GapIsSkipped(gaps[0], "");
      assert gaps[0] + "" == gaps[0];
    } else {
      var t, rest := tokens[0], Spaced(tokens[1..], gaps[1..]);
      assert t in tokens && forall u | u in tokens[1..] :: u in tokens;
      GapIsSkipped(gaps[0], t + rest);
      SpacedTail(tokens[1..], gaps[1..]);
      var line := t + rest;
      assert line[0..] == line && line[0..|t|] == t && line[|t|..] == rest;
      assert forall k | 0 <= k < |t| :: line[k] == t[k];
      WordIsToken(line, 0, |t|);
      TailGaps(tokens, gaps);
      if |tokens| > 1 { BlanksSeparate(tokens[1..], gaps[1..]); } else { BlanksSeparate([], gaps[1..]); }
      assert [t] + tokens[1..] == tokens;
    }
  }

  lemma TailGaps(tokens: seq<string>, gaps: seq<string>)
    requires |gaps| == |tokens| + 1 && tokens != []
    requires forall i | 0 <= i <= |tokens| :: Blanks(gaps[i]) && (0 < i < |tokens| ==> gaps[i] != "")
    ensures var tail, after := tokens[1..], gaps[1..];
            forall i | 0 <= i <= |tail| :: Blanks(after[i]) && (0 < i < |tail| ==> after[i] != "")
  {
    hide Blanks;
    assert forall i | 0 <= i < |tokens| :: gaps[1..][i] == gaps[i + 1];
  }

  /** What follows a token is empty or starts with a blank. */
  lemma SpacedTail(tokens: seq<string>, gaps: seq<string>)
    requires |gaps| == |tokens| + 1 && Blanks(gaps[0]) && (tokens != [] ==> gaps[0] != "")
    ensures var rest := Spaced(tokens, gaps); rest != "" ==> IsSpace(rest[0])
  {
  }

  lemma KeyIsWord(f: Field)
    ensures KeyName(f) != [] && NoBlank(KeyName(f)) && forall k | 0 <= k < |KeyName(f)| :: KeyName(f)[k] != '='
  {
  }

  lemma TokenCarriesField(st: Status, f: Field)
    requires Representable(st)
    ensures Token(st, f) != [] && NoBlank(Token(st, f)) && WellFormed(Token(st, f))
    ensures TokenField(Token(st, f)) == Some(f)
    ensures Parse(f, Value(Token(st, f))) == Some(Get(st, f))
  {
    hide KeyName, FieldText, FieldOf, Parse, Get, Representable;
    KeyIsFound(f, KeyName(f));
    KeyIsWord(f);
    FieldTextParses(st, f);
    var t := Token(st, f);
    assert forall k | 0 <= k < |KeyName(f)| :: t[k] == KeyName(f)[k];
    EqualAtIs(t, |KeyName(f)|);
    assert t[..|KeyName(f)|] == KeyName(f) && t[|KeyName(f)| + 1..] == FieldText(st, f);
  }

  lemma PrintedStatusIsAccepted(st: Status)
    requires Representable(st)
    ensures Accepts(Tokens(Print(st)), st)
  {
    hide Token, TokenField, WellFormed, Parse, Get, Representable, NoBlank, Join, Tokens, Position;
    var tokens := seq(|FIELDS|, i requires 0 <= i < |FIELDS| => Token(st, FIELDS[i]));
    forall i | 0 <= i < |tokens|
      ensures tokens[i] != [] && NoBlank(tokens[i]) && WellFormed(tokens[i]) && TokenField(tokens[i]) == Some(FIELDS[i])
    {
      TokenCarriesField(st, FIELDS[i]);
    }
    TokensOfJoin(tokens);
    forall f
      ensures HasField(tokens, f, st)
    {
      var i := Position(f);
      TokenCarriesField(st, f);
      assert tokens[i] == Token(st, f);
      forall j: nat | j < |tokens| && TokenField(tokens[j]) == Some(f)
        ensures j == i
      {
        FieldsDistinct(j, i);
      }
      assert OnlyAt(tokens, f, i, st);
    }
  }

  /** The print of a status denotes that status and no other, so the parser,
      which returns the status a line denotes, gives it back. */
  lemma PrintedStatusReadsBack(st: Status, read: Status)
    requires Representable(st)
    ensures Accepts(Tokens(Print(st)), read) <==> read == st
  {
    hide Accepts, Tokens, Print, Representable;
    PrintedStatusIsAccepted(st);
    if Accepts(Tokens(Print(st)), read) { AcceptsOneStatus(Tokens(Print(st)), read, st); }
  }

  lemma FieldsDistinct(i: nat, j: nat)
    requires i < |FIELDS| && j < |FIELDS| && FIELDS[i] == FIELDS[j]
    ensures i == j
  {
    assert Position(FIELDS[i]) == i;
    assert Position(FIELDS[j]) == j;
  }

  lemma FieldTextIsShort(st: Status, f: Field)
    requires Representable(st)
    ensures |KeyName(f)| <= 12 && |FieldText(st, f)| <= 20
  {
    hide Numeral, Power;
    Powers();
    match f
    case FGeneration => NumeralIsShort(st.generation, 10, 20);
    case FEpoch => NumeralIsShort(st.epoch, 10, 20);
    case FWidth => NumeralIsShort(st.width, 10, 10);
    case FHeight => NumeralIsShort(st.height, 10, 10);
    case FFps => NumeralIsShort(st.fps, 10, 10);
    case FCode => NumeralIsShort(st.code, 16, 8);
    case FEnable => NumeralIsShort(st.enable, 10, 10);
    case FErrno => NumeralIsShort(if st.lastErrno < 0 then -st.lastErrno else st.lastErrno, 10, 10);
    case FWorkerErrno => NumeralIsShort(if st.workerErrno < 0 then -st.workerErrno else st.workerErrno, 10, 10);
    case FLease => NumeralIsShort(st.lease, 10, 10);
    case FMatch => NumeralIsShort(st.matched, 10, 10);
    case _ =>
  }

  lemma {:induction false} JoinIsShort(tokens: seq<string>)
    requires forall t | t in tokens :: |t| <= 33
    ensures |Join(tokens)| <= 34 * |tokens| + 1
  {
    if |tokens| > 0 {
      assert tokens[0] in tokens && forall t | t in tokens[1..] :: t in tokens;
      JoinIsShort(tokens[1..]);
    }
  }

  /** The print of any status fits the program's 1024-byte read buffer. */
  lemma PrintFits(st: Status)
    requires Representable(st)
    ensures |Print(st)| < 1024
  {
    hide Representable, KeyName, FieldText;
    var tokens := seq(|FIELDS|, i requires 0 <= i < |FIELDS| => Token(st, FIELDS[i]));
    forall i | 0 <= i < |tokens|
      ensures |tokens[i]| <= 33
    {
      FieldTextIsShort(st, FIELDS[i]);
    }
    JoinIsShort(tokens);
  }
}
