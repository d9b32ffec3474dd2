/**
 MFA recovery codes: generation and the ledger of their use
 (apps/server/src/modules/mfa/mfa.service.ts:26-56, 103-113, 167-168, 200-211, 228-235, 291-316).
 */
module RecoveryCodes {
  import opened Common
  import opened Counting

  const ALPHABET := "ABCDEFGHJKLMNPQRSTUVWXYZ23456789"
  const CODES_PER_MINT := 8

  // ---------------------------------------------------------------------------------------------
  // Generation
  // ---------------------------------------------------------------------------------------------

  type Byte = b: int | 0 <= b < 256

  function Symbol(b: Byte): char {
    ALPHABET[b % 32]
  }

  function Symbols(bytes: seq<Byte>): (s: string)
    ensures |s| == |bytes| && forall i | 0 <= i < |s| :: s[i] == Symbol(bytes[i])
  {
    seq(|bytes|, i requires 0 <= i < |bytes| => Symbol(bytes[i]))
  }

  /** The text of a code: four symbols, a dash, four symbols. */
  function CodeOf(bytes: seq<Byte>): string
    requires |bytes| == 8
  {
    Symbols(bytes[..4]) + "-" + Symbols(bytes[4..])
  }

  /** A code after its first j bytes. */
  ghost function Partial(bytes: seq<Byte>, j: nat): string
    requires j <= |bytes| == 8
  {
    if j <= 3 then Symbols(bytes[..j]) else Symbols(bytes[..4]) + "-" + Symbols(bytes[4..j])
  }

  lemma PartialGrows(bytes: seq<Byte>, j: nat)
    requires j < |bytes| == 8
    ensures Partial(bytes, j + 1) == Partial(bytes, j) + [Symbol(bytes[j])] + (if j == 3 then "-" else "")
  {
    if j <= 3 {
      assert Symbols(bytes[..j + 1]) == Symbols(bytes[..j]) + [Symbol(bytes[j])];
      if j == 3 {
        assert bytes[4..4] == [];
        assert Symbols(bytes[4..4]) == [];
      }
    } else {
      assert Symbols(bytes[4..j + 1]) == Symbols(bytes[4..j]) + [Symbol(bytes[j])];
    }
  }

  /** generateRecoveryCodesRaw, with the random bytes as an argument. */
  method GenerateRecoveryCodesRaw(random: seq<seq<Byte>>) returns (codes: seq<string>)
    requires |random| == 8 && forall i | 0 <= i < 8 :: |random[i]| == 8
    ensures |codes| == 8 && forall i | 0 <= i < 8 :: codes[i] == CodeOf(random[i])
  {
    codes := [];
    for i := 0 to 8
      invariant |codes| == i && forall k | 0 <= k < i :: codes[k] == CodeOf(random[k])
    {
      var bytes := random[i];
      var code := "";
      for j := 0 to 8
        invariant code == Partial(bytes, j)
      {
        PartialGrows(bytes, j);
        code := code + [ALPHABET[bytes[j] % |ALPHABET|]];
        if j == 3 {
          code := code + "-";
        }
      }
      assert Partial(bytes, 8) == CodeOf(bytes) by {
        assert bytes[4..8] == bytes[4..];
      }
      codes := codes + [code];
    }
  }

  /** A code has nine characters: a dash in the middle, and around it the symbol of each byte in its place. */
  lemma CodeReads(bytes: seq<Byte>)
    requires |bytes| == 8
    ensures |CodeOf(bytes)| == 9 && CodeOf(bytes)[4] == '-'
    ensures forall i | 0 <= i < 4 :: CodeOf(bytes)[i] == "ABCDEFGHJKLMNPQRSTUVWXYZ23456789"[bytes[i] % 32]
    ensures forall i | 4 <= i < 8 :: CodeOf(bytes)[i + 1] == "ABCDEFGHJKLMNPQRSTUVWXYZ23456789"[bytes[i] % 32]
  {
  }

  lemma AlphabetHasNoRepeats(i: nat, j: nat)
    requires i < 32 && j < 32 && ALPHABET[i] == ALPHABET[j]
    ensures i == j
  {
    assert |ALPHABET| == 32;
    assert forall k | 0 <= k < 32 :: Position(ALPHABET[k]) == k;
  }

  /** Where a symbol stands in the alphabet: A-H, J-N, P-Z, 2-9. */
  function Position(c: char): int {
    if 'A' <= c <= 'H' then c as int - 'A' as int
    else if 'J' <= c <= 'N' then c as int - 'J' as int + 8
    else if 'P' <= c <= 'Z' then c as int - 'P' as int + 13
    else c as int - '2' as int + 24
  }

  function BytesFor(k: nat): set<Byte> {
    set b: Byte | 0 <= b < 256 && b % 32 == k
  }

  lemma EightBytes(k: nat)
    requires k < 32
    ensures |BytesFor(k)| == 8
  {
    var eight: set<Byte> := {k, k + 32, k + 64, k + 96, k + 128, k + 160, k + 192, k + 224};
    assert BytesFor(k) == eight;
  }

  /** Every symbol comes from exactly eight of the 256 byte values, so a uniform byte gives a uniform symbol. */
  lemma EverySymbolHasEightBytes(k: nat)
    requires k < 32
    ensures |BytesFor(k)| == 8
    ensures forall b: Byte :: b in BytesFor(k) <==> Symbol(b) == ALPHABET[k]
  {
    EightBytes(k);
    forall b: Byte
      ensures b in BytesFor(k) <==> Symbol(b) == ALPHABET[k]
    {
      if Symbol(b) == ALPHABET[k] {
        AlphabetHasNoRepeats(b % 32, k);
      }
    }
  }

  /** Two byte strings give the same code exactly when they agree modulo 32 in each of the eight places. */
  lemma CodeDeterminesSymbols(a: seq<Byte>, b: seq<Byte>)
    requires |a| == 8 && |b| == 8
    ensures CodeOf(a) == CodeOf(b) <==> forall i | 0 <= i < 8 :: a[i] % 32 == b[i] % 32
  {
    var s, t := CodeOf(a), CodeOf(b);
    forall i | 0 <= i < 8
      ensures s[if i < 4 then i else i + 1] == Symbol(a[i]) && t[if i < 4 then i else i + 1] == Symbol(b[i])
    {
    }
    if s == t {
      forall i | 0 <= i < 8
        ensures a[i] % 32 == b[i] % 32
      {
        assert s[if i < 4 then i else i + 1] == t[if i < 4 then i else i + 1];
        AlphabetHasNoRepeats(a[i] % 32, b[i] % 32);
      }
    }
    if forall i | 0 <= i < 8 :: a[i] % 32 == b[i] % 32 {
      assert Symbols(a[..4]) == Symbols(b[..4]) && Symbols(a[4..]) == Symbols(b[4..]);
    }
  }

  // ---------------------------------------------------------------------------------------------
  // The ledger
  // ---------------------------------------------------------------------------------------------

  /** An HMAC, taken symbolically. */
  datatype Mac = Hmac(key: string, text: string)

  datatype Row = Row(userId: string, codeHash: Mac, usedAt: Option<int>)

  type Ledger = seq<Row>

  function WithoutUser(rows: Ledger, userId: string): Ledger {
    if rows == [] then []
    else WithoutUser(rows[..|rows| - 1], userId)
         + (if rows[|rows| - 1].userId == userId then [] else [rows[|rows| - 1]])
  }

  function NewRows(userId: string, codes: seq<string>, key: string): Ledger {
    if codes == [] then []
    else NewRows(userId, codes[..|codes| - 1], key) + [Row(userId, Hmac(key, codes[|codes| - 1]), None)]
  }

  /** enrollTotp and regenerateRecoveryCodes, as far as the ledger goes: the old rows go, eight new ones come. */
  function Mint(rows: Ledger, userId: string, codes: seq<string>, key: string): Ledger {
    WithoutUser(rows, userId) + NewRows(userId, codes, key)
  }

  function CountRows(rows: Ledger, userId: string): nat {
    if rows == [] then 0
    else CountRows(rows[..|rows| - 1], userId)
         + (if rows[|rows| - 1].userId == userId then 1 else 0)
  }

  /** countUnusedRecoveryCodes. */
  function CountUnused(rows: Ledger, userId: string): nat {
    if rows == [] then 0
    else CountUnused(rows[..|rows| - 1], userId)
         + (if rows[|rows| - 1].userId == userId && rows[|rows| - 1].usedAt.None? then 1 else 0)
  }

  /** The unused rows of one user. */
  lemma CountUnusedIsSize(rows: seq<Row>, userId: string)
    ensures CountUnused(rows, userId)
            == |set i | 0 <= i < |rows| && rows[i].userId == userId && rows[i].usedAt.None?|
  {
    var p := (r: Row) => r.userId == userId && r.usedAt.None?;
    CountUnusedIsCountIf(rows, userId, p);
    CountIsSize(rows, p);
    assert Places(rows, p) == set i | 0 <= i < |rows| && rows[i].userId == userId && rows[i].usedAt.None?;
  }

  lemma {:induction false} CountUnusedIsCountIf(rows: seq<Row>, userId: string, p: Row -> bool)
    requires forall r: Row :: p(r) <==> r.userId == userId && r.usedAt.None?
    ensures CountUnused(rows, userId) == CountIf(rows, p)
  {
    if rows != [] {
      CountUnusedIsCountIf(rows[..|rows| - 1], userId, p);
    }
  }

  /** The rows of one user. */
  lemma CountRowsIsSize(rows: seq<Row>, userId: string)
    ensures CountRows(rows, userId)
            == |set i | 0 <= i < |rows| && rows[i].userId == userId|
  {
    var p := (r: Row) => r.userId == userId;
    CountRowsIsCountIf(rows, userId, p);
    CountIsSize(rows, p);
    assert Places(rows, p) == set i | 0 <= i < |rows| && rows[i].userId == userId;
  }

  lemma {:induction false} CountRowsIsCountIf(rows: seq<Row>, userId: string, p: Row -> bool)
    requires forall r: Row :: p(r) <==> r.userId == userId
    ensures CountRows(rows, userId) == CountIf(rows, p)
  {
    if rows != [] {
      CountRowsIsCountIf(rows[..|rows| - 1], userId, p);
    }
  }

  predicate Fits(r: Row, userId: string, mac: Mac) {
    r.userId == userId && r.usedAt.None? && r.codeHash == mac
  }

  function FirstFit(rows: Ledger, userId: string, mac: Mac): nat {
    if rows == [] then 0
    else if Fits(rows[0], userId, mac) then 0
    else 1 + FirstFit(rows[1..], userId, mac)
  }

  lemma {:induction false} FirstFitFinds(rows: Ledger, userId: string, mac: Mac)
    ensures FirstFit(rows, userId, mac) <= |rows|
    ensures forall i | 0 <= i < FirstFit(rows, userId, mac) :: !Fits(rows[i], userId, mac)
    ensures FirstFit(rows, userId, mac) < |rows| ==> Fits(rows[FirstFit(rows, userId, mac)], userId, mac)
  {
    if rows != [] && !Fits(rows[0], userId, mac) {
      FirstFitFinds(rows[1..], userId, mac);
    }
  }

  /** The recovery branch of verifyMfaChallenge: what remains, if a code was accepted, and the new ledger. */
  function UseCode(rows: Ledger, userId: string, code: string, key: string, now: int): (Option<nat>, Ledger) {
    var i := FirstFit(rows, userId, Hmac(key, code));
    if i >= |rows| then (None, rows)
    else
      var rows' := rows[i := rows[i].(usedAt := Some(now))];
      (Some(CountUnused(rows', userId)), rows')
  }

  class RecoveryLedger {
    var rows: Ledger

    constructor ()
      ensures rows == []
    {
      rows := [];
    }

    method DeleteAll(userId: string)
      modifies this
      ensures rows == WithoutUser(old(rows), userId)
    {
      var all := rows;
      var kept: Ledger := [];
      for i := 0 to |all|
        invariant kept == WithoutUser(all[..i], userId)
      {
        assert all[..i + 1][..i] == all[..i];
        if all[i].userId != userId {
          kept := kept + [all[i]];
        }
      }
      assert all[..|all|] == all;
      rows := kept;
    }

    method ReplaceCodes(userId: string, rawCodes: seq<string>, key: string)
      modifies this
      ensures rows == Mint(old(rows), userId, rawCodes, key)
    {
      DeleteAll(userId);
      var base := rows;
      assert base + [] == base;
      for i := 0 to |rawCodes|
        invariant rows == base + NewRows(userId, rawCodes[..i], key)
      {
        assert rawCodes[..i + 1][..i] == rawCodes[..i];
        rows := rows + [Row(userId, Hmac(key, rawCodes[i]), None)];
      }
      assert rawCodes[..|rawCodes|] == rawCodes;
    }

    method CountUnusedRecoveryCodes(userId: string) returns (n: nat)
      ensures n == CountUnused(rows, userId)
    {
      n := 0;
      for i := 0 to |rows|
        invariant n == CountUnused(rows[..i], userId)
      {
        assert rows[..i + 1][..i] == rows[..i];
        if rows[i].userId == userId && rows[i].usedAt.None? {
          n := n + 1;
        }
      }
      assert rows[..|rows|] == rows;
    }

    method UseRecoveryCode(userId: string, code: string, key: string, now: int) returns (remaining: Option<nat>)
      modifies this
      ensures (remaining, rows) == UseCode(old(rows), userId, code, key, now)
    {
      var incomingHash := Hmac(key, code);
      FirstFitFinds(rows, userId, incomingHash);
      var i := 0;
      while i < |rows| && !(rows[i].userId == userId && rows[i].usedAt.None? && rows[i].codeHash == incomingHash)
        invariant 0 <= i <= FirstFit(rows, userId, incomingHash)
      {
        i := i + 1;
      }
      if i == |rows| {
        return None;
      }
      rows := rows[i := rows[i].(usedAt := Some(now))];
      var n := CountUnusedRecoveryCodes(userId);
      remaining := Some(n);
    }
  }

  // ---------------------------------------------------------------------------------------------
  // Serial runs
  // ---------------------------------------------------------------------------------------------

  datatype Event =
    | MintCall(owner: string, random: seq<seq<Byte>>, key: string)
    | DisableCall(disabled: string)
    | UseCall(userId: string, code: string, hmacKey: string, now: int)

  /** The ledger, and for each user how many codes were used since the last mint. */
  datatype State = State(rows: Ledger, uses: map<string, nat>)

  function Uses(s: State, userId: string): nat {
    if userId in s.uses then s.uses[userId] else 0
  }

  function CodesFrom(random: seq<seq<Byte>>): seq<string>
    requires forall i | 0 <= i < |random| :: |random[i]| == 8
  {
    seq(|random|, i requires 0 <= i < |random| => CodeOf(random[i]))
  }

  function Step(s: State, e: Event): State {
    match e
    case MintCall(u, random, key) =>
      if |random| != 8 || exists i :: 0 <= i < |random| && |random[i]| != 8 then s
      else State(Mint(s.rows, u, CodesFrom(random), key), s.uses[u := 0])
    case DisableCall(u) => State(WithoutUser(s.rows, u), s.uses[u := 0])
    case UseCall(u, code, key, now) =>
      var (r, rows) := UseCode(s.rows, u, code, key, now);
      if r.Some? then State(rows, s.uses[u := Uses(s, u) + 1]) else s
  }

  function Run(s: State, es: seq<Event>): State
    decreases |es|
  {
    if es == [] then s else Run(Step(s, es[0]), es[1..])
  }

  ghost predicate Inv(s: State) {
    forall u :: (CountRows(s.rows, u) == 0 && Uses(s, u) == 0)
      || (CountRows(s.rows, u) == 8 && CountUnused(s.rows, u) + Uses(s, u) == 8)
  }

  lemma {:induction false} WithoutUserCounts(rows: Ledger, userId: string, u: string)
    ensures CountRows(WithoutUser(rows, userId), u) == (if u == userId then 0 else CountRows(rows, u))
    ensures CountUnused(WithoutUser(rows, userId), u) == (if u == userId then 0 else CountUnused(rows, u))
  {
    if rows != [] {
      var init, last := rows[..|rows| - 1], rows[|rows| - 1];
      WithoutUserCounts(init, userId, u);
      var rest := WithoutUser(init, userId);
      if last.userId == userId {
        assert rest + [] == rest;
      } else {
        assert (rest + [last])[..|rest|] == rest;
      }
    }
  }

  lemma {:induction false} NewRowsCounts(base: Ledger, userId: string, codes: seq<string>, key: string, u: string)
    ensures CountRows(base + NewRows(userId, codes, key), u) == CountRows(base, u)
      + (if u == userId then |codes| else 0)
    ensures CountUnused(base + NewRows(userId, codes, key), u) == CountUnused(base, u)
      + (if u == userId then |codes| else 0)
    decreases |codes|
  {
    if codes == [] {
      assert base + [] == base;
    } else {
      var init, last := codes[..|codes| - 1], codes[|codes| - 1];
      NewRowsCounts(base, userId, init, key, u);
      var before := base + NewRows(userId, init, key);
      var row := Row(userId, Hmac(key, last), None);
      assert base + NewRows(userId, codes, key) == before + [row];
      assert (before + [row])[..|before|] == before;
    }
  }

  lemma {:induction false} UseCounts(rows: Ledger, i: nat, now: int, u: string)
    requires i < |rows| && rows[i].usedAt.None?
    ensures var rows' := rows[i := rows[i].(usedAt := Some(now))];
            && CountRows(rows', u) == CountRows(rows, u)
            && CountUnused(rows', u) == CountUnused(rows, u) - (if u == rows[i].userId then 1 else 0)
    decreases |rows|
  {
    var rows' := rows[i := rows[i].(usedAt := Some(now))];
    var n := |rows| - 1;
    if i < n {
      UseCounts(rows[..n], i, now, u);
      assert rows'[..n] == rows[..n][i := rows[i].(usedAt := Some(now))];
    } else {
      assert rows'[..n] == rows[..n];
    }
  }

  lemma UseNeedsRow(rows: Ledger, i: nat)
    requires i < |rows|
    ensures CountRows(rows, rows[i].userId) > 0
    decreases |rows|
  {
    if i < |rows| - 1 {
      UseNeedsRow(rows[..|rows| - 1], i);
    }
  }

  lemma MintKeepsInv(s: State, e: Event)
    requires Inv(s) && e.MintCall?
    ensures Inv(Step(s, e))
  {
    if |e.random| == 8 && forall i | 0 <= i < |e.random| :: |e.random[i]| == 8 {
      var rows' := Mint(s.rows, e.owner, CodesFrom(e.random), e.key);
      forall v
        ensures CountRows(rows', v) == (if v == e.owner then 8 else CountRows(s.rows, v))
        ensures CountUnused(rows', v) == (if v == e.owner then 8 else CountUnused(s.rows, v))
      {
        WithoutUserCounts(s.rows, e.owner, v);
        NewRowsCounts(WithoutUser(s.rows, e.owner), e.owner, CodesFrom(e.random), e.key, v);
      }
    }
  }

  lemma StepKeepsInv(s: State, e: Event)
    requires Inv(s)
    ensures Inv(Step(s, e))
  {
    match e
    case MintCall(_, _, _) => MintKeepsInv(s, e);
    case DisableCall(u) =>
      forall v
        ensures CountRows(WithoutUser(s.rows, u), v) == (if v == u then 0 else CountRows(s.rows, v))
        ensures CountUnused(WithoutUser(s.rows, u), v) == (if v == u then 0 else CountUnused(s.rows, v))
      {
        WithoutUserCounts(s.rows, u, v);
      }
    case UseCall(u, code, key, now) => UseKeepsInv(s, u, code, key, now);
  }

  lemma UseKeepsInv(s: State, u: string, code: string, key: string, now: int)
    requires Inv(s)
    ensures Inv(Step(s, UseCall(u, code, key, now)))
  {
    FirstFitFinds(s.rows, u, Hmac(key, code));
    var i := FirstFit(s.rows, u, Hmac(key, code));
    if i < |s.rows| {
      UseNeedsRow(s.rows, i);
      var rows' := s.rows[i := s.rows[i].(usedAt := Some(now))];
      forall v
        ensures CountRows(rows', v) == CountRows(s.rows, v)
        ensures CountUnused(rows', v) == CountUnused(s.rows, v) - (if v == u then 1 else 0)
      {
        UseCounts(s.rows, i, now, v);
      }
    }
  }

  lemma {:induction false} RunKeepsInv(s: State, es: seq<Event>)
    requires Inv(s)
    ensures Inv(Run(s, es))
    decreases |es|
  {
    if es != [] {
      StepKeepsInv(s, es[0]);
      RunKeepsInv(Step(s, es[0]), es[1..]);
    }
  }

  const INIT := State([], map[])

  /**
   After every run a user has no recovery rows or eight, and the remaining count that a use reports
   is eight minus the uses since the codes were minted.
   */
  lemma LedgerBalances(es: seq<Event>, userId: string, code: string, key: string, now: int)
    ensures var s := Run(INIT, es);
            && (CountRows(s.rows, userId) == 0 || CountRows(s.rows, userId) == 8)
            && var (r, _) := UseCode(s.rows, userId, code, key, now);
            (r.Some? ==> CountRows(s.rows, userId) == 8 && r.value == 8 - (Uses(s, userId) + 1))
  {
    RunKeepsInv(INIT, es);
    var s := Run(INIT, es);
    StepKeepsInv(s, UseCall(userId, code, key, now));
    FirstFitFinds(s.rows, userId, Hmac(key, code));
    var i := FirstFit(s.rows, userId, Hmac(key, code));
    if i < |s.rows| {
      UseNeedsRow(s.rows, i);
      UseCounts(s.rows, i, now, userId);
    }
  }

  /** A use spends one unused row of that user whose hash fits, and changes nothing else. */
  lemma UseSpendsOneRow(rows: Ledger, userId: string, code: string, key: string, now: int)
    ensures var (r, rows') := UseCode(rows, userId, code, key, now);
            && (r.Some? <==> exists i :: 0 <= i < |rows| && Fits(rows[i], userId, Hmac(key, code)))
            && |rows'| == |rows|
            && (r.Some? ==>
                  exists i :: 0 <= i < |rows| && Fits(rows[i], userId, Hmac(key, code))
                              && rows'[i].usedAt == Some(now)
                              && forall k | 0 <= k < |rows| && k != i :: rows'[k] == rows[k])
            && (forall k | 0 <= k < |rows| && rows[k].usedAt.Some? :: rows'[k] == rows[k])
  {
    FirstFitFinds(rows, userId, Hmac(key, code));
  }

  // ---------------------------------------------------------------------------------------------
  // The ledger as a bag of codes for each user
  // ---------------------------------------------------------------------------------------------

  /** How often a code can still be used by a user. */
  function Left(rows: Ledger, userId: string, mac: Mac): nat {
    if rows == [] then 0
    else Left(rows[..|rows| - 1], userId, mac) + (if Fits(rows[|rows| - 1], userId, mac) then 1 else 0)
  }

  function Occurrences(codes: seq<string>, code: string): nat {
    if codes == [] then 0
    else Occurrences(codes[..|codes| - 1], code) + (if codes[|codes| - 1] == code then 1 else 0)
  }

  /** The unused rows of one user with one hash. */
  lemma LeftIsSize(rows: seq<Row>, userId: string, mac: Mac)
    ensures Left(rows, userId, mac)
            == |set i | 0 <= i < |rows| && rows[i].userId == userId && rows[i].usedAt.None? && rows[i].codeHash == mac|
  {
    var p := (r: Row) => r.userId == userId && r.usedAt.None? && r.codeHash == mac;
    LeftIsCountIf(rows, userId, mac, p);
    CountIsSize(rows, p);
    assert Places(rows, p) == set i | 0 <= i < |rows| && rows[i].userId == userId && rows[i].usedAt.None?
      && rows[i].codeHash == mac;
  }

  lemma {:induction false} LeftIsCountIf(rows: seq<Row>, userId: string, mac: Mac, p: Row -> bool)
    requires forall r: Row :: p(r) <==> r.userId == userId && r.usedAt.None? && r.codeHash == mac
    ensures Left(rows, userId, mac) == CountIf(rows, p)
  {
    if rows != [] {
      LeftIsCountIf(rows[..|rows| - 1], userId, mac, p);
    }
  }

  lemma LeftSnoc(rows: Ledger, r: Row, userId: string, mac: Mac)
    ensures Left(rows + [r], userId, mac) == Left(rows, userId, mac) + (if Fits(r, userId, mac) then 1 else 0)
  {
    assert (rows + [r])[..|rows|] == rows;
  }

  lemma {:induction false} LeftMeansSomeFit(rows: Ledger, userId: string, mac: Mac)
    ensures Left(rows, userId, mac) > 0 <==> FirstFit(rows, userId, mac) < |rows|
  {
    if rows != [] {
      var n := |rows| - 1;
      var init := rows[..n];
      LeftMeansSomeFit(init, userId, mac);
      FirstFitFinds(init, userId, mac);
      FirstFitFinds(rows, userId, mac);
      var i, j := FirstFit(init, userId, mac), FirstFit(rows, userId, mac);
      assert i < n ==> Fits(rows[i], userId, mac);
      assert j < n ==> Fits(init[j], userId, mac);
    }
  }

  lemma {:induction false} WithoutUserLeft(rows: Ledger, userId: string, u: string, mac: Mac)
    ensures Left(WithoutUser(rows, userId), u, mac) == if u == userId then 0 else Left(rows, u, mac)
  {
    if rows != [] {
      var init, last := rows[..|rows| - 1], rows[|rows| - 1];
      WithoutUserLeft(init, userId, u, mac);
      var rest := WithoutUser(init, userId);
      if last.userId == userId {
        assert rest + [] == rest;
      } else {
        LeftSnoc(rest, last, u, mac);
      }
    }
  }

  lemma {:induction false} NewRowsLeft(base: Ledger, userId: string, codes: seq<string>, key: string, u: string,
                                       code: string)
    ensures Left(base + NewRows(userId, codes, key), u, Hmac(key, code))
            == Left(base, u, Hmac(key, code)) + (if u == userId then Occurrences(codes, code) else 0)
    decreases |codes|
  {
    if codes == [] {
      assert base + [] == base;
    } else {
      var init, last := codes[..|codes| - 1], codes[|codes| - 1];
      NewRowsLeft(base, userId, init, key, u, code);
      var before := base + NewRows(userId, init, key);
      var row := Row(userId, Hmac(key, last), None);
      assert base + NewRows(userId, codes, key) == before + [row];
      LeftSnoc(before, row, u, Hmac(key, code));
    }
  }

  lemma {:induction false} SpendLeft(rows: Ledger, i: nat, now: int, u: string, mac: Mac)
    requires i < |rows|
    ensures Left(rows[i := rows[i].(usedAt := Some(now))], u, mac)
      == Left(rows, u, mac) - (if Fits(rows[i], u, mac) then 1 else 0)
    decreases |rows|
  {
    var spent := rows[i].(usedAt := Some(now));
    var n := |rows| - 1;
    if i < n {
      SpendLeft(rows[..n], i, now, u, mac);
      assert rows[i := spent] == rows[..n][i := spent] + [rows[n]];
      LeftSnoc(rows[..n][i := spent], rows[n], u, mac);
    } else {
      assert rows[i := spent] == rows[..n] + [spent];
      LeftSnoc(rows[..n], spent, u, mac);
    }
  }

  /** Minting leaves the user exactly the new codes, each as often as it was minted; nobody else's codes change. */
  lemma MintFillsTheBag(rows: Ledger, userId: string, codes: seq<string>, key: string, u: string, code: string)
    ensures Left(Mint(rows, userId, codes, key), u, Hmac(key, code))
            == if u == userId then Occurrences(codes, code) else Left(rows, u, Hmac(key, code))
  {
    WithoutUserLeft(rows, userId, u, Hmac(key, code));
    NewRowsLeft(WithoutUser(rows, userId), userId, codes, key, u, code);
  }

  /** A code is accepted exactly while the user has it left; it is then taken out once, and no other code is touched. */
  lemma UseTakesFromTheBag(rows: Ledger, userId: string, code: string, key: string, now: int, u: string, mac: Mac)
    ensures var (r, rows') := UseCode(rows, userId, code, key, now);
            && (r.Some? <==> Left(rows, userId, Hmac(key, code)) > 0)
            && Left(rows', u, mac)
               == Left(rows, u, mac) - (if r.Some? && u == userId && mac == Hmac(key, code) then 1 else 0)
  {
    FirstFitFinds(rows, userId, Hmac(key, code));
    LeftMeansSomeFit(rows, userId, Hmac(key, code));
    var i := FirstFit(rows, userId, Hmac(key, code));
    if i < |rows| {
      SpendLeft(rows, i, now, u, mac);
    }
  }
}
