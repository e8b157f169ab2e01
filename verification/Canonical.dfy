/** The canonical text a command's MAC is computed over (command.py), and why two different
    commands of the generated shape never share one. */
module Canonical {

  /** Key bytes. */
  newtype Byte = x: int | 0 <= x < 256
  type Bytes = seq<Byte>

  /** Lower-case hex of a keyed hash of a text, as `hmac.new(key, text, sha256).hexdigest()`
      gives it; any function will do. */
  type Mac = (Bytes, string) -> string

  /** Every digest is ASCII, as hex is. */
  ghost predicate Digests(mac: Mac) {
    forall key, text :: Ascii(mac(key, text))
  }

  predicate Ascii(s: string) {
    forall i :: 0 <= i < |s| ==> s[i] as int < 128
  }

  function Digit(d: int): (c: char)
    requires 0 <= d < 10
    ensures '0' <= c <= '9'
  {
    '0' + d as char
  }

  function Digits(n: nat): (s: string)
    ensures |s| > 0 && forall i :: 0 <= i < |s| ==> '0' <= s[i] <= '9'
  {
    if n < 10 then [Digit(n)] else Digits(n / 10) + [Digit(n % 10)]
  }

  /** `str(n)`. */
  function Decimal(n: int): (s: string)
    ensures |s| > 0 && (s[0] == '-' <==> n < 0) && (n < 0 ==> |s| > 1)
  {
    if n < 0 then "-" + Digits(-n) else Digits(n)
  }

  function CanonicalInput(ts: int, nonce: string, reqId: string, action: string): string {
    Decimal(ts) + nonce + reqId + action
  }

  const LOCK := "lock"
  const UNLOCK := "unlock"

  predicate IsAction(action: string) {
    action == LOCK || action == UNLOCK
  }

  predicate HexCharacter(c: char) {
    '0' <= c <= '9' || 'a' <= c <= 'f' || 'A' <= c <= 'F'
  }

  predicate Hex(s: string) {
    forall i :: 0 <= i < |s| ==> HexCharacter(s[i])
  }

  /** What `secrets.token_hex(16)` and `uuid.uuid4().hex` give. */
  predicate Token(s: string) {
    |s| == 32 && Hex(s)
  }

  lemma {:induction false} DigitsAreInjective(a: nat, b: nat)
    requires Digits(a) == Digits(b)
    ensures a == b
  {
    var s, t := Digits(a), Digits(b);
    assert s[|s| - 1] == Digit(a % 10) && t[|t| - 1] == Digit(b % 10);
    if a >= 10 && b >= 10 {
      assert s[..|s| - 1] == Digits(a / 10) && t[..|t| - 1] == Digits(b / 10);
      DigitsAreInjective(a / 10, b / 10);
    }
  }

  lemma DecimalIsInjective(a: int, b: int)
    requires Decimal(a) == Decimal(b)
    ensures a == b
  {
    if a < 0 && b < 0 {
      assert Decimal(a)[1..] == Digits(-a) && Decimal(b)[1..] == Digits(-b);
      DigitsAreInjective(-a, -b);
    } else if a >= 0 && b >= 0 {
      DigitsAreInjective(a, b);
    }
  }

  // ---- the rendering is the decimal one ----

  predicate Figures(s: string) {
    forall i :: 0 <= i < |s| ==> '0' <= s[i] <= '9'
  }

  /** What figures are worth, by their places in base ten. */
  function Value(s: string): nat
    requires Figures(s)
  {
    if s == "" then 0 else 10 * Value(s[..|s| - 1]) + (s[|s| - 1] as int - '0' as int)
  }

  /** Figures without a leading zero. */
  predicate Numeral(s: string) {
    s != "" && Figures(s) && (s[0] == '0' ==> |s| == 1)
  }

  /** A numeral, or a minus sign before one that is not zero. */
  predicate SignedNumeral(s: string) {
    Numeral(s) || (|s| > 1 && s[0] == '-' && Numeral(s[1..]) && s[1] != '0')
  }

  function NumberOf(s: string): int
    requires SignedNumeral(s)
  {
    var magnitude: int := Value(if s[0] == '-' then s[1..] else s);
    if s[0] == '-' then -magnitude else magnitude
  }

  lemma {:induction false} DigitsRead(n: nat)
    ensures Numeral(Digits(n)) && Value(Digits(n)) == n && (n > 0 ==> Digits(n)[0] != '0')
  {
    var s := Digits(n);
    if n >= 10 {
      DigitsRead(n / 10);
      assert s[..|s| - 1] == Digits(n / 10);
    } else {
      assert s[..0] == "";
    }
  }

  lemma {:induction false} NumeralIsPositive(s: string)
    requires s != "" && Figures(s) && s[0] != '0'
    ensures Value(s) > 0
  {
    if |s| > 1 {
      NumeralIsPositive(s[..|s| - 1]);
    }
  }

  lemma {:induction false} NumeralIsDigits(s: string)
    requires Numeral(s)
    ensures s == Digits(Value(s))
  {
    var front, d := s[..|s| - 1], s[|s| - 1] as int - '0' as int;
    assert s == front + [Digit(d)];
    if |s| > 1 {
      NumeralIsDigits(front);
      NumeralIsPositive(front);
      assert Value(s) / 10 == Value(front) && Value(s) % 10 == d;
    } else {
      assert Value(front) == 0;
    }
  }

  lemma DecimalReads(n: int)
    ensures SignedNumeral(Decimal(n)) && NumberOf(Decimal(n)) == n
  {
    if n < 0 {
      DigitsRead(-n);
      assert Decimal(n)[1..] == Digits(-n);
    } else {
      DigitsRead(n);
    }
  }

  lemma NumeralIsDecimal(s: string)
    requires SignedNumeral(s)
    ensures s == Decimal(NumberOf(s))
  {
    if s[0] == '-' {
      NumeralIsDigits(s[1..]);
      NumeralIsPositive(s[1..]);
      assert s == "-" + s[1..];
    } else {
      NumeralIsDigits(s);
    }
  }

  /** `Decimal` is the decimal rendering: the one numeral that is worth `n`. */
  lemma DecimalIff(n: int, s: string)
    ensures s == Decimal(n) <==> SignedNumeral(s) && NumberOf(s) == n
  {
    DecimalReads(n);
    if SignedNumeral(s) {
      NumeralIsDecimal(s);
    }
  }

  /** Two texts that end in words of one length agree on what precedes them. */
  lemma DropEnd(a: string, x: string, b: string, y: string)
    requires a + x == b + y && |x| == |y|
    ensures a == b && x == y
  {
    assert a == (a + x)[..|a|] && x == (a + x)[|a|..];
    assert b == (b + y)[..|b|] && y == (b + y)[|b|..];
  }

  /** "unlock" ends in "lock", but the character before that is not hex. */
  lemma ActionIsTold(front: string, action: string)
    requires IsAction(action) && front != "" && HexCharacter(front[|front| - 1])
    ensures action == (if HexCharacter((front + action)[|front + action| - 5]) then LOCK else UNLOCK)
  {
    if action == LOCK {
      assert (front + action)[|front + action| - 5] == front[|front| - 1];
    } else {
      assert (front + action)[|front + action| - 5] == UNLOCK[1] == 'n';
    }
  }

  /** On what the client generates the canonical text is uniquely decodable, although it has no
      delimiter. */
  lemma CanonicalInputIsDecodable(ts: int, nonce: string, reqId: string, action: string,
                                  ts': int, nonce': string, reqId': string, action': string)
    requires Token(nonce) && Token(reqId) && IsAction(action)
    requires Token(nonce') && Token(reqId') && IsAction(action')
    requires CanonicalInput(ts, nonce, reqId, action) == CanonicalInput(ts', nonce', reqId', action')
    ensures ts == ts' && nonce == nonce' && reqId == reqId' && action == action'
  {
    var front, front' := Decimal(ts) + nonce + reqId, Decimal(ts') + nonce' + reqId';
    assert front[|front| - 1] == reqId[31] && front'[|front'| - 1] == reqId'[31];
    ActionIsTold(front, action);
    ActionIsTold(front', action');
    DropEnd(front, action, front', action');
    DropEnd(Decimal(ts) + nonce, reqId, Decimal(ts') + nonce', reqId');
    DropEnd(Decimal(ts), nonce, Decimal(ts'), nonce');
    DecimalIsInjective(ts, ts');
  }

  /** The shape is needed: with a request id that is not hex, a lock command and an unlock
      command share a canonical text. */
  lemma FreeTextIsAmbiguous(ts: int, nonce: string, reqId: string)
    ensures CanonicalInput(ts, nonce, reqId + "un", LOCK) == CanonicalInput(ts, nonce, reqId, UNLOCK)
  {
    LockReadsAsUnlockIff(Decimal(ts) + nonce + (reqId + "un"), Decimal(ts) + nonce + reqId);
    assert Decimal(ts) + nonce + (reqId + "un") == Decimal(ts) + nonce + reqId + "un";
  }

  /** A lock text is an unlock text exactly when what precedes its action ends in "un" after what
      precedes the other's. */
  lemma LockReadsAsUnlockIff(front: string, front': string)
    ensures front + LOCK == front' + UNLOCK <==> front == front' + "un"
  {
    assert UNLOCK == "un" + LOCK;
    assert front' + UNLOCK == front' + "un" + LOCK;
    if front + LOCK == front' + UNLOCK {
      DropEnd(front, LOCK, front' + "un", LOCK);
    }
  }

  /** Exactly when two commands with any fields share a canonical text. */
  lemma SameTextIff(ts: int, nonce: string, reqId: string, action: string,
                    ts': int, nonce': string, reqId': string, action': string)
    requires IsAction(action) && IsAction(action')
    ensures var front, front' := Decimal(ts) + nonce + reqId, Decimal(ts') + nonce' + reqId';
            CanonicalInput(ts, nonce, reqId, action) == CanonicalInput(ts', nonce', reqId', action') <==>
            if action == action' then front == front'
            else if action == LOCK then front == front' + "un"
            else front' == front + "un"
  {
    var front, front' := Decimal(ts) + nonce + reqId, Decimal(ts') + nonce' + reqId';
    if action == action' {
      if front + action == front' + action {
        DropEnd(front, action, front', action);
      }
    } else if action == LOCK {
      LockReadsAsUnlockIff(front, front');
    } else {
      LockReadsAsUnlockIff(front', front);
    }
  }

  /** With 32-hex nonces and any request ids, equal texts have equal fields exactly when the
      actions are equal and the request ids equally long. */
  lemma FreeRequestIdIsDecodableIff(ts: int, nonce: string, reqId: string, action: string,
                                    ts': int, nonce': string, reqId': string, action': string)
    requires Token(nonce) && Token(nonce') && IsAction(action) && IsAction(action')
    requires CanonicalInput(ts, nonce, reqId, action) == CanonicalInput(ts', nonce', reqId', action')
    ensures ts == ts' && nonce == nonce' && reqId == reqId' && action == action'
       <==> action == action' && |reqId| == |reqId'|
  {
    if action == action' && |reqId| == |reqId'| {
      SameTextIff(ts, nonce, reqId, action, ts', nonce', reqId', action');
      DropEnd(Decimal(ts) + nonce, reqId, Decimal(ts') + nonce', reqId');
      DropEnd(Decimal(ts), nonce, Decimal(ts'), nonce');
      DecimalIsInjective(ts, ts');
    }
  }

  lemma LockEndsAsTold(front: string, reqId: string, front': string)
    requires |reqId| >= 2 && front + reqId == front' + "un"
    ensures reqId[|reqId| - 2..] == "un"
  {
    var cut := |reqId| - 2;
    assert front + reqId == (front + reqId[..cut]) + reqId[cut..];
    DropEnd(front + reqId[..cut], reqId[cut..], front', "un");
  }
}
