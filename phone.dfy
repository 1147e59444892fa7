/** The phone recogniser `phone_pattern` (main.py line 24), anchored with `^`
    and `$` and read as a full match. One number is
    `\+?\d{1,4}[-.\s]?\(?\d{1,3}?\)?[-.\s]?\d{1,4}[-.\s]?\d{1,4}[-.\s]?\d{1,9}`
    and the pattern accepts one number followed by any count of
    comma-prefixed numbers. The source compiles it and never calls it. */
module PhonePattern {
  import opened Text

  /** `\s` on ASCII: space, tab, newline, carriage return, vertical tab, form
      feed, and the four separators U+001C to U+001F, which `str.isspace` also
      accepts. */
  predicate IsSpace(c: char) {
    c == ' ' || c == '\t' || c == '\n' || c == '\r' || c as int == 11 || c as int == 12 ||
    28 <= c as int <= 31
  }

  /** The character classes the pattern uses. */
  datatype CharClass = Digit | Separator | Plus | OpenParen | CloseParen

  predicate InClass(c: char, cls: CharClass) {
    match cls
    case Digit => IsDigit(c)
    case Separator => c == '-' || c == '.' || IsSpace(c)
    case Plus => c == '+'
    case OpenParen => c == '('
    case CloseParen => c == ')'
  }

  /** A class repeated between `min` and `max` times, as in `\d{1,4}` or `\(?`. */
  datatype Piece = Piece(cls: CharClass, min: nat, max: nat)

  /** One number of the pattern, piece by piece. The lazy `\d{1,3}?` accepts
      the same strings as `\d{1,3}`. */
  const Number: seq<Piece> := [
    Piece(Plus, 0, 1),
    Piece(Digit, 1, 4),
    Piece(Separator, 0, 1),
    Piece(OpenParen, 0, 1),
    Piece(Digit, 1, 3),
    Piece(CloseParen, 0, 1),
    Piece(Separator, 0, 1),
    Piece(Digit, 1, 4),
    Piece(Separator, 0, 1),
    Piece(Digit, 1, 4),
    Piece(Separator, 0, 1),
    Piece(Digit, 1, 9)
  ]

  predicate AllIn(t: string, cls: CharClass) {
    forall k :: 0 <= k < |t| ==> InClass(t[k], cls)
  }

  /** `s` is a concatenation of one stretch per piece, each as long as its piece allows. */
  ghost predicate Derives(ps: seq<Piece>, s: string)
    decreases |ps|
  {
    if ps == [] then s == []
    else exists n ::
      (ps[0].min <= n <= ps[0].max && n <= |s| &&
       AllIn(s[..n], ps[0].cls) && Derives(ps[1..], s[n..]))
  }

  /** A list of derived strings joined by commas, as in `N(?:,N)*`: one
      derived string, or one derived string, a comma and again such a list. */
  ghost predicate ListMatch(ps: seq<Piece>, s: string)
    decreases |s|
  {
    Derives(ps, s) ||
    exists k :: 0 <= k < |s| && s[k] == ',' && Derives(ps, s[..k]) && ListMatch(ps, s[k + 1..])
  }

  /** The whole of `phone_pattern`. */
  ghost predicate PhoneMatch(s: string) {
    ListMatch(Number, s)
  }

  /** Decides `Derives` by trying every allowed length of the first piece. */
  function MatchPieces(ps: seq<Piece>, s: string): (r: bool)
    ensures r <==> Derives(ps, s)
    decreases |ps|, 1, 0
  {
    if ps == [] then s == [] else TryLengths(ps, s, ps[0].min)
  }

  /** Whether the first piece can take some length `m >= n` and the remaining
      pieces the rest of `s`. */
  function TryLengths(ps: seq<Piece>, s: string, n: nat): (r: bool)
    requires ps != [] && ps[0].min <= n
    ensures r <==> exists m ::
      (n <= m && ps[0].min <= m <= ps[0].max && m <= |s| &&
       AllIn(s[..m], ps[0].cls) && Derives(ps[1..], s[m..]))
    decreases |ps|, 0, ps[0].max + 1 - n
  {
    if n > ps[0].max || n > |s| then false
    else if AllIn(s[..n], ps[0].cls) && MatchPieces(ps[1..], s[n..]) then
      assert Derives(ps[1..], s[n..]);
      true
    else TryLengths(ps, s, n + 1)
  }

  /** Every string of `parts` derives from `ps`. */
  ghost predicate AllDerive(ps: seq<Piece>, parts: seq<string>) {
    forall k :: 0 <= k < |parts| ==> Derives(ps, parts[k])
  }

  lemma AllDeriveCons(ps: seq<Piece>, head: string, rest: seq<string>)
    requires Derives(ps, head) && AllDerive(ps, rest)
    ensures AllDerive(ps, [head] + rest)
  {
    forall k | 0 <= k < |[head] + rest| ensures Derives(ps, ([head] + rest)[k]) {
      if k > 0 {
        assert ([head] + rest)[k] == rest[k - 1];
      }
    }
  }

  /** Decides a comma-joined list: split at the commas and match every piece. */
  method CheckList(ps: seq<Piece>, s: string) returns (ok: bool)
    ensures ok <==> ListMatch(ps, s)
  {
    var parts := Split(s, ',');
    ok := true;
    var i := 0;
    while i < |parts|
      invariant 0 <= i <= |parts|
      invariant ok <==> AllDerive(ps, parts[..i])
    {
      var m := MatchPieces(ps, parts[i]);
      assert parts[..i + 1] == parts[..i] + [parts[i]];
      ok := ok && m;
      i := i + 1;
    }
    assert parts[..i] == parts;
    ListMatchSplit(ps, s);
  }

  /** Decides `phone_pattern`. */
  method CheckPhone(s: string) returns (ok: bool)
    ensures ok <==> PhoneMatch(s)
  {
    ok := CheckList(Number, s);
  }

  // ----- What a matched string looks like -----

  /** A character that some class of the pattern admits. */
  predicate PhoneChar(c: char) {
    IsDigit(c) || IsSpace(c) || c == '+' || c == '(' || c == ')' || c == '-' || c == '.'
  }

  /** Every character is a phone character or a comma. */
  predicate ListChars(s: string) {
    forall k :: 0 <= k < |s| ==> PhoneChar(s[k]) || s[k] == ','
  }

  /** Every character of a derived string belongs to the class of some piece. */
  lemma {:induction false} DerivesChars(ps: seq<Piece>, s: string)
    requires Derives(ps, s)
    ensures forall k :: 0 <= k < |s| ==> exists i :: 0 <= i < |ps| && InClass(s[k], ps[i].cls)
    decreases |ps|
  {
    if ps != [] {
      var n :| ps[0].min <= n <= ps[0].max && n <= |s| &&
        AllIn(s[..n], ps[0].cls) && Derives(ps[1..], s[n..]);
      DerivesChars(ps[1..], s[n..]);
      forall k | 0 <= k < |s| ensures exists i :: 0 <= i < |ps| && InClass(s[k], ps[i].cls) {
        if k < n {
          assert InClass(s[..n][k], ps[0].cls);
        } else {
          assert s[k] == s[n..][k - n];
          var i :| 0 <= i < |ps[1..]| && InClass(s[n..][k - n], ps[1..][i].cls);
          assert ps[1..][i] == ps[i + 1];
        }
      }
    }
  }

  /** A derived string holds only phone characters, and no comma. */
  lemma DerivesPhoneChars(ps: seq<Piece>, s: string)
    requires Derives(ps, s)
    ensures forall k :: 0 <= k < |s| ==> PhoneChar(s[k]) && s[k] != ','
  {
    DerivesChars(ps, s);
  }

  /** When only the first piece admits `+`, and at most once, `+` can only be
      the first character. */
  lemma PlusOnlyFirst(ps: seq<Piece>, s: string)
    requires Derives(ps, s)
    requires |ps| > 0 && ps[0].max <= 1
    requires forall i :: 1 <= i < |ps| ==> ps[i].cls != Plus
    ensures forall k :: 0 < k < |s| ==> s[k] != '+'
  {
    var n :| ps[0].min <= n <= ps[0].max && n <= |s| &&
      AllIn(s[..n], ps[0].cls) && Derives(ps[1..], s[n..]);
    DerivesChars(ps[1..], s[n..]);
    forall k | 0 < k < |s| ensures s[k] != '+' {
      if n <= k {
        assert s[k] == s[n..][k - n];
        var i :| 0 <= i < |ps[1..]| && InClass(s[n..][k - n], ps[1..][i].cls);
        assert ps[1..][i] == ps[i + 1];
      }
    }
  }

  /** The number of digits in `s`. */
  function CountDigits(s: string): nat {
    if s == [] then 0 else (if IsDigit(s[0]) then 1 else 0) + CountDigits(s[1..])
  }

  lemma {:induction false} CountDigitsAppend(a: string, b: string)
    ensures CountDigits(a + b) == CountDigits(a) + CountDigits(b)
  {
    if a == [] {
      assert a + b == b;
    } else {
      assert (a + b)[0] == a[0];
      assert (a + b)[1..] == a[1..] + b;
      CountDigitsAppend(a[1..], b);
    }
  }

  /** A stretch of one class holds only digits or no digit at all. */
  lemma {:induction false} CountDigitsAllIn(t: string, cls: CharClass)
    requires AllIn(t, cls)
    ensures CountDigits(t) == if cls == Digit then |t| else 0
  {
    if t != [] {
      assert AllIn(t[1..], cls);
      CountDigitsAllIn(t[1..], cls);
    }
  }

  /** The least and the most digits the digit pieces of `ps` allow. */
  function MinDigits(ps: seq<Piece>): nat {
    if ps == [] then 0 else (if ps[0].cls == Digit then ps[0].min else 0) + MinDigits(ps[1..])
  }

  function MaxDigits(ps: seq<Piece>): nat {
    if ps == [] then 0 else (if ps[0].cls == Digit then ps[0].max else 0) + MaxDigits(ps[1..])
  }

  /** A derived string has between the least and the most digits its pieces allow. */
  lemma {:induction false} DigitBounds(ps: seq<Piece>, s: string)
    requires Derives(ps, s)
    ensures MinDigits(ps) <= CountDigits(s) <= MaxDigits(ps)
    decreases |ps|
  {
    if ps != [] {
      var n :| ps[0].min <= n <= ps[0].max && n <= |s| &&
        AllIn(s[..n], ps[0].cls) && Derives(ps[1..], s[n..]);
      DigitBounds(ps[1..], s[n..]);
      assert s == s[..n] + s[n..];
      CountDigitsAppend(s[..n], s[n..]);
      CountDigitsAllIn(s[..n], ps[0].cls);
    }
  }

  /** The pieces of one number allow 5 to 24 digits, and `+` only in the first piece, at most once. */
  lemma NumberPieces()
    ensures MinDigits(Number) == 5 && MaxDigits(Number) == 24
    ensures |Number| > 0 && Number[0].max <= 1
    ensures forall i :: 1 <= i < |Number| ==> Number[i].cls != Plus
  {
    NumberDigits();
    PlusFree(Number[1..]);
    forall i | 1 <= i < |Number| ensures Number[i].cls != Plus {
      assert Number[i] == Number[1..][i - 1];
    }
  }

  lemma NumberDigits()
    ensures MinDigits(Number) == 5 && MaxDigits(Number) == 24 && PlusPieces(Number[1..]) == 0
  {
    NumberFront();
    assert Number[2..][1..] == Number[3..];
    assert MinDigits(Number[2..]) == 4 && MaxDigits(Number[2..]) == 20 && PlusPieces(Number[2..]) == 0;
    assert Number[1..][1..] == Number[2..];
  }

  /** The number of pieces of class `Plus`. */
  function PlusPieces(ps: seq<Piece>): nat {
    if ps == [] then 0 else (if ps[0].cls == Plus then 1 else 0) + PlusPieces(ps[1..])
  }

  lemma {:induction false} PlusFree(ps: seq<Piece>)
    requires PlusPieces(ps) == 0
    ensures forall i :: 0 <= i < |ps| ==> ps[i].cls != Plus
  {
    if ps != [] {
      PlusFree(ps[1..]);
      forall i | 1 <= i < |ps| ensures ps[i].cls != Plus {
        assert ps[i] == ps[1..][i - 1];
      }
    }
  }

  lemma NumberFront()
    ensures MinDigits(Number[3..]) == 4 && MaxDigits(Number[3..]) == 20 && PlusPieces(Number[3..]) == 0
  {
    NumberMiddle();
    assert Number[3..][1..] == Number[4..];
  }

  lemma NumberMiddle()
    ensures MinDigits(Number[4..]) == 4 && MaxDigits(Number[4..]) == 20 && PlusPieces(Number[4..]) == 0
  {
    NumberTail();
    assert Number[7..][1..] == Number[8..];
    assert MinDigits(Number[7..]) == 3 && MaxDigits(Number[7..]) == 17 && PlusPieces(Number[7..]) == 0;
    assert Number[6..][1..] == Number[7..];
    assert MinDigits(Number[6..]) == 3 && MaxDigits(Number[6..]) == 17 && PlusPieces(Number[6..]) == 0;
    assert Number[5..][1..] == Number[6..];
    assert MinDigits(Number[5..]) == 3 && MaxDigits(Number[5..]) == 17 && PlusPieces(Number[5..]) == 0;
    assert Number[4..][1..] == Number[5..];
  }

  lemma NumberTail()
    ensures MinDigits(Number[8..]) == 2 && MaxDigits(Number[8..]) == 13 && PlusPieces(Number[8..]) == 0
  {
    assert Number[11..][1..] == Number[12..];
    assert MinDigits(Number[11..]) == 1 && MaxDigits(Number[11..]) == 9 && PlusPieces(Number[11..]) == 0;
    assert Number[10..][1..] == Number[11..];
    assert MinDigits(Number[10..]) == 1 && MaxDigits(Number[10..]) == 9 && PlusPieces(Number[10..]) == 0;
    assert Number[9..][1..] == Number[10..];
    assert MinDigits(Number[9..]) == 2 && MaxDigits(Number[9..]) == 13 && PlusPieces(Number[9..]) == 0;
    assert Number[8..][1..] == Number[9..];
  }

  /** A comma-joined list matches exactly when every comma-separated piece derives. */
  lemma ListMatchSplit(ps: seq<Piece>, s: string)
    ensures ListMatch(ps, s) <==> AllDerive(ps, Split(s, ','))
  {
    if ListMatch(ps, s) {
      ListMatchPieces(ps, s);
    }
    if AllDerive(ps, Split(s, ',')) {
      PiecesListMatch(ps, s);
    }
  }

  lemma {:induction false} ListMatchPieces(ps: seq<Piece>, s: string)
    requires ListMatch(ps, s)
    ensures AllDerive(ps, Split(s, ','))
    decreases |s|
  {
    if Derives(ps, s) {
      DerivesPhoneChars(ps, s);
      SplitNone(s, ',');
    } else {
      var k :| 0 <= k < |s| && s[k] == ',' && Derives(ps, s[..k]) && ListMatch(ps, s[k + 1..]);
      DerivesPhoneChars(ps, s[..k]);
      SplitFirst(s, ',', k);
      ListMatchPieces(ps, s[k + 1..]);
      AllDeriveCons(ps, s[..k], Split(s[k + 1..], ','));
    }
  }

  lemma {:induction false} PiecesListMatch(ps: seq<Piece>, s: string)
    requires AllDerive(ps, Split(s, ','))
    ensures ListMatch(ps, s)
    decreases |s|
  {
    var parts := Split(s, ',');
    if ',' !in s {
      assert parts == [s];
      assert Derives(ps, parts[0]);
    } else {
      var i := IndexOf(s, ',');
      var rest := s[i + 1..];
      var restParts := Split(rest, ',');
      assert parts == [s[..i]] + restParts;
      assert Derives(ps, parts[0]);
      assert AllDerive(ps, restParts) by {
        forall j | 0 <= j < |restParts| ensures Derives(ps, restParts[j]) {
          assert restParts[j] == parts[j + 1];
        }
      }
      PiecesListMatch(ps, rest);
    }
  }

  /** What every match looks like (main.py line 24): only digits, whitespace,
      `+`, `(`, `)`, `-`, `.` and `,`; each comma-separated number has 5 to 24
      digits; and `+` appears only as the first character of a number. */
  lemma PhoneShape(s: string)
    requires PhoneMatch(s)
    ensures ListChars(s)
    ensures forall p :: p in Split(s, ',') ==>
      5 <= CountDigits(p) <= 24 && forall k :: 0 < k < |p| ==> p[k] != '+'
  {
    NumberPieces();
    ListShape(Number, s);
  }

  /** The same for any list of pieces shaped like a number. */
  lemma ListShape(ps: seq<Piece>, s: string)
    requires ListMatch(ps, s)
    requires |ps| > 0 && ps[0].max <= 1
    requires forall i :: 1 <= i < |ps| ==> ps[i].cls != Plus
    ensures ListChars(s)
    ensures forall p :: p in Split(s, ',') ==>
      MinDigits(ps) <= CountDigits(p) <= MaxDigits(ps) && forall k :: 0 < k < |p| ==> p[k] != '+'
  {
    var parts := Split(s, ',');
    ListMatchSplit(ps, s);
    forall p | p in parts
      ensures MinDigits(ps) <= CountDigits(p) <= MaxDigits(ps) && forall k :: 0 < k < |p| ==> p[k] != '+'
    {
      var i :| 0 <= i < |parts| && parts[i] == p;
      assert Derives(ps, parts[i]);
      DigitBounds(ps, p);
      PlusOnlyFirst(ps, p);
    }
    JoinedChars(ps, parts);
  }

  /** Joining derived strings with commas leaves only phone characters and commas. */
  lemma {:induction false} JoinedChars(ps: seq<Piece>, parts: seq<string>)
    requires |parts| >= 1
    requires AllDerive(ps, parts)
    ensures ListChars(Join(parts, ','))
  {
    DerivesPhoneChars(ps, parts[0]);
    if |parts| > 1 {
      JoinedChars(ps, parts[1..]);
      var head, tail := parts[0], Join(parts[1..], ',');
      var s := Join(parts, ',');
      assert s == head + [','] + tail;
      forall k | 0 <= k < |s| ensures PhoneChar(s[k]) || s[k] == ',' {
        if k < |head| {
          assert s[k] == head[k];
          assert PhoneChar(head[k]);
        } else if k > |head| {
          var t := k - |head| - 1;
          assert s[k] == tail[t];
        } else {
          assert s[k] == ',';
        }
      }
    }
  }
}
