/** The input validator `saisir`: reads lines from standard input, modelled
    as the sequence of characters still to be read, until one of them holds
    an integer in [TAILLE_MIN, BLOC]. Each `char` of the stream stands for
    one byte of input, so every length below counts bytes, as `fgets` and
    `strlen` do. */
module Input {
  import opened Grid

  datatype Option<T> = None | Some(value: T)

  /** Size of the line buffer `char chaine[30]`. */
  const BUFFER_SIZE: nat := 30

  /** The diagnoses `saisir` hands to `erreurs`. */
  datatype Diagnosis =
    | InputTooLong   // ENTREE_TROP_LONGUE
    | NotAnInteger   // SAISIR_ENTIER
    | OutOfBounds    // SAISIR_DANS_BORNES

  // ---------------------------------------------------------------------
  // The C library calls `saisir` relies on

  /** How many characters `fgets(chaine, limit + 1, stdin)` takes: up to and
      including the first newline, but never more than `limit`. */
  function ChunkLength(input: seq<char>, limit: nat): (n: nat)
    ensures n <= limit && n <= |input|
    ensures limit > 0 && input != [] ==> n > 0
  {
    if limit == 0 || input == [] then 0
    else if input[0] == '\n' then 1
    else 1 + ChunkLength(input[1..], limit - 1)
  }

  /** The chunk `fgets` takes holds no newline before its last character,
      and it only ends without a newline when the buffer is full or the
      input is exhausted. */
  lemma {:induction false} ChunkLengthStops(input: seq<char>, limit: nat)
    ensures var n := ChunkLength(input, limit);
      (forall k :: 0 <= k < n - 1 ==> input[k] != '\n') &&
      (n == limit || n == |input| || (n > 0 && input[n - 1] == '\n'))
  {
    if limit != 0 && input != [] && input[0] != '\n' {
      ChunkLengthStops(input[1..], limit - 1);
    }
  }

  /** `while (getchar() != '\n');`: what is left after the first newline.
      Without a newline the loop never ends (`getchar` keeps returning EOF);
      that is `None`. */
  function Drain(input: seq<char>): (r: Option<seq<char>>)
    ensures r.None? <==> '\n' !in input
    ensures r.Some? ==> |r.value| < |input|
  {
    if input == [] then None
    else if input[0] == '\n' then Some(input[1..])
    else Drain(input[1..])
  }

  /** The white-space characters `isspace` accepts. */
  predicate IsSpace(ch: char) {
    ch == ' ' || ('\t' <= ch <= '\r')
  }

  predicate IsDigit(ch: char) {
    '0' <= ch <= '9'
  }

  predicate AllDigits(s: seq<char>) {
    forall k :: 0 <= k < |s| ==> IsDigit(s[k])
  }

  /** The input with its leading white space removed. */
  function SkipSpaces(s: seq<char>): (t: seq<char>)
    ensures |t| <= |s|
  {
    if s != [] && IsSpace(s[0]) then SkipSpaces(s[1..]) else s
  }

  /** Length of the run of digits that starts the input. */
  function DigitRun(s: seq<char>): (k: nat)
    ensures k <= |s|
  {
    if s != [] && IsDigit(s[0]) then 1 + DigitRun(s[1..]) else 0
  }

  /** The run is made of digits and is the longest one. */
  lemma {:induction false} DigitRunIsRun(s: seq<char>)
    ensures AllDigits(s[..DigitRun(s)])
    ensures DigitRun(s) < |s| ==> !IsDigit(s[DigitRun(s)])
  {
    if s != [] && IsDigit(s[0]) {
      DigitRunIsRun(s[1..]);
      assert s[..DigitRun(s)] == [s[0]] + s[1..][..DigitRun(s[1..])];
    }
  }

  /** The value of a string of decimal digits, most significant first. */
  function DecimalValue(ds: seq<char>): int {
    if ds == [] then 0
    else DecimalValue(ds[..|ds| - 1]) * 10 + (ds[|ds| - 1] as int - '0' as int)
  }

  /** What `sscanf(s, "%d", &x)` does: a conversion that assigns `x` (the
      call returns 1), a matching failure (returns 0) or an input failure
      before any conversion, when only white space is left (returns EOF). */
  datatype Scan = Converted(n: int) | MatchFailure | InputFailure

  function ScanInt(s: seq<char>): Scan {
    ScanNumber(SkipSpaces(s))
  }

  /** `%d` once the leading white space is skipped: an optional sign, then
      the longest run of digits. */
  function ScanNumber(t: seq<char>): Scan {
    if t == [] then InputFailure
    else
      var u := if t[0] == '-' || t[0] == '+' then t[1..] else t;
      var k := DigitRun(u);
      if k == 0 then MatchFailure
      else if t[0] == '-' then Converted(-DecimalValue(u[..k]))
      else Converted(DecimalValue(u[..k]))
  }

  // ---------------------------------------------------------------------
  // Reference: decimal rendering, the inverse of the `%d` conversion

  function Digit(d: nat): (ch: char)
    requires d < 10
    ensures IsDigit(ch) && ch as int - '0' as int == d
  {
    (d + '0' as int) as char
  }

  /** The decimal digits of `n`, without leading zeros. */
  function Show(n: nat): (s: seq<char>)
    ensures s != [] && AllDigits(s)
  {
    if n < 10 then [Digit(n)] else Show(n / 10) + [Digit(n % 10)]
  }

  lemma {:induction false} ShowValue(n: nat)
    ensures DecimalValue(Show(n)) == n
  {
    if n >= 10 {
      var s := Show(n);
      assert s[..|s| - 1] == Show(n / 10);
      ShowValue(n / 10);
    }
  }

  /** `%d` reads back what decimal rendering writes, after leading white
      space and an optional sign, and ignoring trailing text that does not
      start with a digit. */
  lemma ScanRoundTrip(spaces: seq<char>, sign: seq<char>, n: nat, tail: seq<char>)
    requires forall k :: 0 <= k < |spaces| ==> IsSpace(spaces[k])
    requires sign == [] || sign == ['-'] || sign == ['+']
    requires tail == [] || !IsDigit(tail[0])
    ensures ScanInt(spaces + sign + Show(n) + tail) == Converted(if sign == ['-'] then -(n as int) else n)
  {
    var ds := Show(n);
    var t := sign + (ds + tail);
    assert spaces + sign + ds + tail == spaces + t;
    assert t != [] && !IsSpace(t[0]) by {
      assert IsDigit(ds[0]);
      assert t[0] == if sign == [] then ds[0] else sign[0];
    }
    SkipSpacesPrefix(spaces, t);
    ScanSigned(sign, n, tail);
    calc {
      ScanInt(spaces + sign + ds + tail);
      ScanInt(spaces + t);
      ScanNumber(SkipSpaces(spaces + t));
      ScanNumber(t);
    }
  }

  /** After the white space: the sign, then the digits up to the first
      character that is not one. */
  lemma ScanSigned(sign: seq<char>, n: nat, tail: seq<char>)
    requires sign == [] || sign == ['-'] || sign == ['+']
    requires tail == [] || !IsDigit(tail[0])
    ensures ScanNumber(sign + (Show(n) + tail)) == Converted(if sign == ['-'] then -(n as int) else n)
  {
    var ds := Show(n);
    var u := ds + tail;
    var t := sign + u;
    assert IsDigit(ds[0]);
    assert t[0] == if sign == [] then ds[0] else sign[0];
    assert (if t[0] == '-' || t[0] == '+' then t[1..] else t) == u;
    assert t[0] == '-' <==> sign == ['-'];
    DigitRunPrefix(ds, tail);
    assert u[..|ds|] == ds;
    ShowValue(n);
  }

  lemma {:induction false} SkipSpacesPrefix(spaces: seq<char>, t: seq<char>)
    requires forall k :: 0 <= k < |spaces| ==> IsSpace(spaces[k])
    requires t == [] || !IsSpace(t[0])
    ensures SkipSpaces(spaces + t) == t
  {
    if spaces != [] {
      assert (spaces + t)[1..] == spaces[1..] + t;
      SkipSpacesPrefix(spaces[1..], t);
    }
  }

  lemma {:induction false} DigitRunPrefix(ds: seq<char>, tail: seq<char>)
    requires AllDigits(ds)
    requires tail == [] || !IsDigit(tail[0])
    ensures DigitRun(ds + tail) == |ds|
  {
    if ds != [] {
      assert (ds + tail)[1..] == ds[1..] + tail;
      DigitRunPrefix(ds[1..], tail);
    }
  }

  /** `%d` stops with EOF before any conversion exactly when the line holds
      nothing but white space. */
  lemma ScanBlank(s: seq<char>)
    ensures ScanInt(s) == InputFailure <==> forall k :: 0 <= k < |s| ==> IsSpace(s[k])
  {
    SkipSpacesEmpty(s);
  }

  lemma {:induction false} SkipSpacesEmpty(s: seq<char>)
    ensures SkipSpaces(s) == [] <==> forall k :: 0 <= k < |s| ==> IsSpace(s[k])
  {
    if s != [] && IsSpace(s[0]) {
      SkipSpacesEmpty(s[1..]);
      assert forall k :: 1 <= k < |s| ==> s[k] == s[1..][k - 1];
    }
  }

  /** `%d` is a matching failure when, after the white space and an optional
      sign, the next character is not a digit. */
  lemma ScanNotANumber(spaces: seq<char>, sign: seq<char>, tail: seq<char>)
    requires forall k :: 0 <= k < |spaces| ==> IsSpace(spaces[k])
    requires sign == [] || sign == ['-'] || sign == ['+']
    requires sign == [] ==> tail != [] && !IsSpace(tail[0]) && tail[0] != '-' && tail[0] != '+'
    requires tail == [] || !IsDigit(tail[0])
    ensures ScanInt(spaces + sign + tail) == MatchFailure
  {
    var t := sign + tail;
    assert spaces + sign + tail == spaces + t;
    assert t[0] == if sign == [] then tail[0] else sign[0];
    SkipSpacesPrefix(spaces, t);
    assert (if t[0] == '-' || t[0] == '+' then t[1..] else t) == tail;
  }

  // ---------------------------------------------------------------------
  // One attempt and the retry loop

  /** How one attempt of the loop ends: with a valid value, or with a
      diagnosis and the new content of `*valeur`. */
  datatype Outcome = Valid(value: int) | Retry(diagnosis: Diagnosis, valeur: int)

  /** One line (newline already removed) against the current `*valeur`. A
      conversion stores its result in `*valeur` before the range test; a
      matching failure leaves it; an input failure (a blank line) returns EOF,
      which the test `!= 0` takes for success, so the old `*valeur` is tested. */
  function Attempt(line: seq<char>, valeur: int): (o: Outcome)
    ensures o.Valid? ==> TAILLE_MIN <= o.value <= BLOC
  {
    if |line| <= BUFFER_SIZE then
      match ScanInt(line)
      case Converted(n) => if TAILLE_MIN <= n <= BLOC then Valid(n) else Retry(OutOfBounds, n)
      case InputFailure => if TAILLE_MIN <= valeur <= BLOC then Valid(valeur) else Retry(OutOfBounds, valeur)
      case MatchFailure => Retry(NotAnInteger, valeur)
    else Retry(InputTooLong, valeur)
  }

  /** The result of `saisir`: the value it returns (`None` when it would wait
      for input forever), the input left unread, and the diagnoses reported
      on the way, in order. */
  datatype Reading = Reading(value: Option<int>, rest: seq<char>, diagnoses: seq<Diagnosis>)

  function Prepend(ds: seq<Diagnosis>, r: Reading): Reading {
    Reading(r.value, r.rest, ds + r.diagnoses)
  }

  /** The retry loop of `saisir` as a function of the input and the initial
      content of `*valeur`: one pass of the loop body starts with `fgets`
      and the newline test. */
  function ReadBounded(input: seq<char>, valeur: int): (r: Reading)
    ensures |r.rest| <= |input|
    ensures r.value.Some? ==> |r.rest| < |input| && TAILLE_MIN <= r.value.value <= BLOC
    ensures r.value.None? ==> r.rest == []
    decreases |input|, 1
  {
    var n := ChunkLength(input, BUFFER_SIZE - 1);
    if n > 0 && input[n - 1] == '\n' then AfterLine(input[..n - 1], input[n..], valeur)
    else AfterOverflow(input[n..], valeur)
  }

  /** The rest of a pass on a line read with its newline (removed here): the
      attempt ends the loop with its value, or reports its diagnosis and
      goes round again on the input `after` the line. */
  function AfterLine(line: seq<char>, after: seq<char>, valeur: int): (r: Reading)
    ensures |r.rest| <= |after|
    ensures r.value.Some? ==> TAILLE_MIN <= r.value.value <= BLOC
    ensures r.value.None? ==> r.rest == []
    decreases |after|, 2
  {
    match Attempt(line, valeur)
    case Valid(v) => Reading(Some(v), after, [])
    case Retry(d, valeur') => Prepend([d], ReadBounded(after, valeur'))
  }

  /** The rest of a pass on a chunk without a newline: it is reported as too
      long and the rest of its line drained; at the end of the input the
      draining never ends, and nothing is returned. */
  function AfterOverflow(after: seq<char>, valeur: int): (r: Reading)
    ensures |r.rest| < |after| || r.rest == []
    ensures r.value.Some? ==> TAILLE_MIN <= r.value.value <= BLOC
    ensures r.value.None? ==> r.rest == []
    decreases |after|, 0
  {
    match Drain(after)
    case None => Reading(None, [], [InputTooLong])
    case Some(rest) => Prepend([InputTooLong], ReadBounded(rest, valeur))
  }

  /** `saisir(&valeur)`: the `do ... while (!valide)` loop over `fgets`,
      the newline test, the draining of an unterminated line, `sscanf` and
      the range test. It only returns a value in [TAILLE_MIN, BLOC]. */
  method Saisir(input: seq<char>, valeur0: int) returns (value: Option<int>, rest: seq<char>, diagnoses: seq<Diagnosis>)
    ensures Reading(value, rest, diagnoses) == ReadBounded(input, valeur0)
    ensures value.Some? ==> TAILLE_MIN <= value.value <= BLOC
  {
    var valeur := valeur0;
    var cur := input;
    var valide := false;
    diagnoses := [];
    assert ReadBounded(input, valeur0) == Prepend([], ReadBounded(input, valeur0));
    while !valide
      invariant !valide ==> ReadBounded(input, valeur0) == Prepend(diagnoses, ReadBounded(cur, valeur))
      invariant valide ==> ReadBounded(input, valeur0) == Reading(Some(valeur), cur, diagnoses)
      decreases |cur|, !valide
    {
      ghost var before, valeurBefore, diagnosesBefore := cur, valeur, diagnoses;
      var n := ChunkLength(cur, BUFFER_SIZE - 1);
      var chaine := cur[..n];
      cur := cur[n..];
      if !(n > 0 && chaine[n - 1] == '\n') {
        var drained := Drain(cur);
        UnterminatedTurn(before, valeur, diagnoses);
        if drained.None? {
          return None, [], diagnoses + [InputTooLong];
        }
        cur := drained.value;
        diagnoses := diagnoses + [InputTooLong];
        continue;
      }
      chaine := chaine[..n - 1];
      assert chaine == before[..n - 1];
      if |chaine| <= BUFFER_SIZE {
        var scanned := ScanInt(chaine);
        if scanned != MatchFailure {
          if scanned.Converted? {
            valeur := scanned.n;
          }
          if TAILLE_MIN <= valeur <= BLOC {
            valide := true;
          } else {
            diagnoses := diagnoses + [OutOfBounds];
          }
        } else {
          diagnoses := diagnoses + [NotAnInteger];
        }
      } else {
        diagnoses := diagnoses + [InputTooLong];
      }
      TerminatedTurn(before, valeurBefore, diagnosesBefore, valeur, valide, diagnoses);
    }
    return Some(valeur), cur, diagnoses;
  }

  /** One turn of the loop on a line that `fgets` read with its newline:
      the C branches, stated on the new `*valeur`, the new `valide` and the
      diagnoses, carry the loop's invariant over to the rest of the input. */
  lemma TerminatedTurn(input: seq<char>, valeur0: int, ds0: seq<Diagnosis>,
                       valeur: int, valide: bool, ds: seq<Diagnosis>)
    requires var n := ChunkLength(input, BUFFER_SIZE - 1); n > 0 && input[n - 1] == '\n'
    requires var line := input[..ChunkLength(input, BUFFER_SIZE - 1) - 1];
      if |line| > BUFFER_SIZE then !valide && valeur == valeur0 && ds == ds0 + [InputTooLong]
      else if ScanInt(line) == MatchFailure then !valide && valeur == valeur0 && ds == ds0 + [NotAnInteger]
      else
        valeur == (if ScanInt(line).Converted? then ScanInt(line).n else valeur0) &&
        (valide <==> TAILLE_MIN <= valeur <= BLOC) &&
        ds == if valide then ds0 else ds0 + [OutOfBounds]
    ensures var after := input[ChunkLength(input, BUFFER_SIZE - 1)..];
      Prepend(ds0, ReadBounded(input, valeur0)) ==
        if valide then Reading(Some(valeur), after, ds) else Prepend(ds, ReadBounded(after, valeur))
  {
    var n := ChunkLength(input, BUFFER_SIZE - 1);
    var o := Attempt(input[..n - 1], valeur0);
    AttemptCases(input[..n - 1], valeur0);
    if o.Retry? {
      PrependAppend(ds0, o.diagnosis, ReadBounded(input[n..], o.valeur));
    }
  }

  /** One turn of the loop on a chunk without a newline: reported as too
      long, then the rest of the line is drained. */
  lemma UnterminatedTurn(input: seq<char>, valeur: int, ds: seq<Diagnosis>)
    requires var n := ChunkLength(input, BUFFER_SIZE - 1); !(n > 0 && input[n - 1] == '\n')
    ensures var n := ChunkLength(input, BUFFER_SIZE - 1);
      var d := Drain(input[n..]);
      Prepend(ds, ReadBounded(input, valeur)) ==
        if d.None? then Reading(None, [], ds + [InputTooLong])
        else Prepend(ds + [InputTooLong], ReadBounded(d.value, valeur))
  {
    var n := ChunkLength(input, BUFFER_SIZE - 1);
    var d := Drain(input[n..]);
    if d.Some? {
      PrependAppend(ds, InputTooLong, ReadBounded(d.value, valeur));
    }
  }

  /** `Attempt` branch by branch, in the order `saisir` tests. */
  lemma AttemptCases(line: seq<char>, valeur: int)
    ensures |line| > BUFFER_SIZE ==> Attempt(line, valeur) == Retry(InputTooLong, valeur)
    ensures |line| <= BUFFER_SIZE && ScanInt(line) == MatchFailure ==>
      Attempt(line, valeur) == Retry(NotAnInteger, valeur)
    ensures |line| <= BUFFER_SIZE && ScanInt(line) != MatchFailure ==>
      var v := if ScanInt(line).Converted? then ScanInt(line).n else valeur;
      Attempt(line, valeur) == if TAILLE_MIN <= v <= BLOC then Valid(v) else Retry(OutOfBounds, v)
  {
  }

  lemma PrependAppend(ds: seq<Diagnosis>, d: Diagnosis, r: Reading)
    ensures Prepend(ds + [d], r) == Prepend(ds, Prepend([d], r))
  {
  }

  // ---------------------------------------------------------------------
  // Properties of the loop

  /** `fgets` never fills more than 29 characters, so once the newline is
      removed the test `strlen(chaine) <= 30` always holds and its `else`
      branch cannot be reached. */
  lemma OverlongBranchUnreachable(input: seq<char>)
    ensures ChunkLength(input, BUFFER_SIZE - 1) - 1 < BUFFER_SIZE
  {
  }

  lemma {:induction false} DrainLine(line: seq<char>, rest: seq<char>)
    requires '\n' !in line
    ensures Drain(line + ['\n'] + rest) == Some(rest)
  {
    if line != [] {
      assert (line + ['\n'] + rest)[1..] == line[1..] + ['\n'] + rest;
      DrainLine(line[1..], rest);
    }
  }

  lemma {:induction false} ChunkOfLine(line: seq<char>, rest: seq<char>, limit: nat)
    requires '\n' !in line
    ensures |line| < limit ==> ChunkLength(line + ['\n'] + rest, limit) == |line| + 1
    ensures |line| >= limit ==> ChunkLength(line + ['\n'] + rest, limit) == limit
  {
    if line != [] && limit > 0 {
      assert (line + ['\n'] + rest)[1..] == line[1..] + ['\n'] + rest;
      ChunkOfLine(line[1..], rest, limit - 1);
    }
  }

  /** A terminated line short enough for the buffer (at most 28 characters)
      gets one attempt: a valid value ends the loop, otherwise its diagnosis
      is reported and the loop goes on with the next line. */
  lemma ShortLine(line: seq<char>, rest: seq<char>, valeur: int)
    requires '\n' !in line && |line| < BUFFER_SIZE - 1
    ensures Attempt(line, valeur).Valid? ==>
      ReadBounded(line + ['\n'] + rest, valeur) == Reading(Some(Attempt(line, valeur).value), rest, [])
    ensures Attempt(line, valeur).Retry? ==>
      ReadBounded(line + ['\n'] + rest, valeur)
      == Prepend([Attempt(line, valeur).diagnosis], ReadBounded(rest, Attempt(line, valeur).valeur))
  {
    var input := line + ['\n'] + rest;
    ChunkOfLine(line, rest, BUFFER_SIZE - 1);
    assert input[..|line|] == line && input[|line| + 1..] == rest;
  }

  /** A line that does not fit the buffer (29 characters or more before its
      newline) is reported as too long and skipped whole, newline included. */
  lemma LongLine(line: seq<char>, rest: seq<char>, valeur: int)
    requires '\n' !in line && |line| >= BUFFER_SIZE - 1
    ensures ReadBounded(line + ['\n'] + rest, valeur) == Prepend([InputTooLong], ReadBounded(rest, valeur))
  {
    var input := line + ['\n'] + rest;
    var n := BUFFER_SIZE - 1;
    ChunkOfLine(line, rest, n);
    assert input[n - 1] == line[n - 1];
    assert input[n..] == line[n..] + ['\n'] + rest;
    DrainLine(line[n..], rest);
  }

  /** Input that ends without a newline can never be completed: every
      diagnosis is reported and then the loop waits for ever. */
  lemma {:induction false} UnterminatedInputNeverReturns(input: seq<char>, valeur: int)
    requires '\n' !in input
    ensures ReadBounded(input, valeur) == Reading(None, [], [InputTooLong])
  {
    var n := ChunkLength(input, BUFFER_SIZE - 1);
    assert '\n' !in input[n..];
  }

  /** A blank line, or one holding only white space, is not rejected as "not
      an integer": `sscanf` returns EOF, so the value already in `*valeur` is
      range-tested and, when in range, returned again. */
  lemma BlankLineReusesValue(spaces: seq<char>, rest: seq<char>, valeur: int)
    requires forall k :: 0 <= k < |spaces| ==> IsSpace(spaces[k])
    requires '\n' !in spaces && |spaces| < BUFFER_SIZE - 1
    ensures TAILLE_MIN <= valeur <= BLOC ==>
      ReadBounded(spaces + ['\n'] + rest, valeur) == Reading(Some(valeur), rest, [])
    ensures !(TAILLE_MIN <= valeur <= BLOC) ==>
      ReadBounded(spaces + ['\n'] + rest, valeur) == Prepend([OutOfBounds], ReadBounded(rest, valeur))
  {
    ScanBlank(spaces);
    ShortLine(spaces, rest, valeur);
  }

  /** A terminated line that fits the buffer and holds the integer m (white
      space, an optional sign, the digits of its magnitude, then text that
      does not start with a digit) is accepted when m is in [1, 9]; otherwise
      it is reported out of bounds, and m is what `*valeur` holds for the
      next line. */
  lemma IntegerLine(spaces: seq<char>, sign: seq<char>, n: nat, tail: seq<char>, rest: seq<char>, valeur: int)
    requires forall k :: 0 <= k < |spaces| ==> IsSpace(spaces[k])
    requires sign == [] || sign == ['-'] || sign == ['+']
    requires tail == [] || !IsDigit(tail[0])
    requires '\n' !in spaces + sign + Show(n) + tail && |spaces + sign + Show(n) + tail| < BUFFER_SIZE - 1
    ensures var m := if sign == ['-'] then -(n as int) else n;
      var r := ReadBounded(spaces + sign + Show(n) + tail + ['\n'] + rest, valeur);
      if TAILLE_MIN <= m <= BLOC then r == Reading(Some(m), rest, [])
      else r == Prepend([OutOfBounds], ReadBounded(rest, m))
  {
    ScanRoundTrip(spaces, sign, n, tail);
    ShortLine(spaces + sign + Show(n) + tail, rest, valeur);
  }

  /** A terminated line that fits the buffer and holds no integer (after the
      white space and an optional sign, no digit follows) is reported as not
      an integer, and `*valeur` keeps its value for the next line. */
  lemma NonIntegerLine(spaces: seq<char>, sign: seq<char>, tail: seq<char>, rest: seq<char>, valeur: int)
    requires forall k :: 0 <= k < |spaces| ==> IsSpace(spaces[k])
    requires sign == [] || sign == ['-'] || sign == ['+']
    requires sign == [] ==> tail != [] && !IsSpace(tail[0]) && tail[0] != '-' && tail[0] != '+'
    requires tail == [] || !IsDigit(tail[0])
    requires '\n' !in spaces + sign + tail && |spaces + sign + tail| < BUFFER_SIZE - 1
    ensures ReadBounded(spaces + sign + tail + ['\n'] + rest, valeur)
            == Prepend([NotAnInteger], ReadBounded(rest, valeur))
  {
    ScanNotANumber(spaces, sign, tail);
    ShortLine(spaces + sign + tail, rest, valeur);
  }

  lemma ScenarioNotAnInteger(valeur: int)
    ensures Attempt("abc", valeur) == Retry(NotAnInteger, valeur)
  {
  }

  lemma ScenarioDigit(d: nat, valeur: int)
    requires d < 10
    ensures Attempt([Digit(d)], valeur) == if d == 0 then Retry(OutOfBounds, 0) else Valid(d)
  {
    var none: seq<char> := [];
    ScanRoundTrip(none, none, d, none);
    assert none + none + Show(d) + none == Show(d) == [Digit(d)];
  }

  // The scenario lines below are parameters pinned by `requires` rather than
  // string literals: on literal arguments the verifier unfolds the reading
  // functions without bound, and the proof of `ThreeLines` runs out of
  // resource.

  lemma ScenarioLastLine(l3: seq<char>)
    requires l3 == "5"
    ensures ReadBounded(l3 + ['\n'], 0) == Reading(Some(5), [], [])
  {
    ScenarioDigit(5, 0);
    assert l3 == [Digit(5)];
    ShortLine(l3, [], 0);
    assert l3 + ['\n'] + [] == l3 + ['\n'];
  }

  lemma ScenarioTwoLines(l2: seq<char>, l3: seq<char>, valeur: int)
    requires l2 == "0" && l3 == "5"
    ensures ReadBounded(l2 + ['\n'] + (l3 + ['\n']), valeur) == Reading(Some(5), [], [OutOfBounds])
  {
    ScenarioDigit(0, valeur);
    assert l2 == [Digit(0)];
    ShortLine(l2, l3 + ['\n'], valeur);
    ScenarioLastLine(l3);
  }

  /** The lines "abc", "0", "5": first "not an integer", then "out of
      bounds", then 5 is returned and nothing is left unread. */
  lemma ThreeLines(l1: seq<char>, l2: seq<char>, l3: seq<char>, valeur: int)
    requires l1 == "abc" && l2 == "0" && l3 == "5"
    ensures ReadBounded(l1 + ['\n'] + l2 + ['\n'] + l3 + ['\n'], valeur)
            == Reading(Some(5), [], [NotAnInteger, OutOfBounds])
  {
    var second := l2 + ['\n'] + (l3 + ['\n']);
    ScenarioNotAnInteger(valeur);
    ShortLine(l1, second, valeur);
    ScenarioTwoLines(l2, l3, valeur);
    LinesAssociate(l1, l2, l3);
  }

  lemma LinesAssociate(l1: seq<char>, l2: seq<char>, l3: seq<char>)
    ensures l1 + ['\n'] + l2 + ['\n'] + l3 + ['\n'] == l1 + ['\n'] + (l2 + ['\n'] + (l3 + ['\n']))
  {
  }
}
