/** Remote unlocking: access codes, request and confirmation codes, the service and the
  player's side of each (tools/lavender/remote, player/src/enc/provider/remote).
*/
module Remote {
  import opened Bits
  import opened Bytes
  import opened Des
  import opened Base24
  import opened Wrappers

  const REQUEST_SIZE: nat := 18
  const RESPONSE_SIZE: nat := 14

  type Uid = x: nat | x < 0x1_0000_0000_0000_0000_0000

  // ----- Access codes -----

  const P38: nat := 0x40_0000_0000
  const P48: nat := 0x1_0000_0000_0000

  // The content identifier, masked with a part of the user identifier.
  function MaskedCid(cid: word32, uid: nat): (x: word32) {
    Pow2Words();
    XorBound(cid, uid / 0x1000 % 0x1_0000_0000, 32);
    Xor(cid, uid / 0x1000 % 0x1_0000_0000)
  }

  function WithParityBit(n: nat): nat { n * 2 + Parity(n) }

  function AccessLeft(cid: word32, uid: Uid): nat {
    WithParityBit(uid / P38 * 0x1_0000 + MaskedCid(cid, uid) / 0x1_0000)
  }

  function AccessRight(cid: word32, uid: Uid): nat {
    WithParityBit(uid % P38 * 0x1_0000 + MaskedCid(cid, uid) % 0x1_0000)
  }

  lemma AccessBounds(cid: word32, uid: Uid)
    ensures AccessLeft(cid, uid) < 0x800_0000_0000_0000 && AccessRight(cid, uid) < 0x80_0000_0000_0000
  {
    hide MaskedCid, Parity;
    ParityRange(uid / P38 * 0x1_0000 + MaskedCid(cid, uid) / 0x1_0000);
    ParityRange(uid % P38 * 0x1_0000 + MaskedCid(cid, uid) % 0x1_0000);
  }

  function AccessCode(cid: word32, uid: Uid): seq<char> {
    AccessBounds(cid, uid);
    PowerBound(13);
    Format(AccessLeft(cid, uid), AccessRight(cid, uid))
  }

  lemma EvenParity(n: nat)
    ensures Parity(WithParityBit(n)) == 0 && WithParityBit(n) / 2 == n
  {
    ParityRange(n);
    assert WithParityBit(n) / 2 == n && WithParityBit(n) % 2 == Parity(n);
  }

  datatype Access = InvalidKey | Granted(cid: nat, uidBytes: seq<byte>)

  // What the player reads from the two numbers.
  function ReadAccess(left: nat, right: nat): Access {
    if Parity(left) != 0 || Parity(right) != 0 then InvalidKey
    else
      var l, r := left / 2, right / 2;
      var uidRight := Or(r / 0x1_0000, l / 0x1_0000 % 0x400 * P38);
      var uidLeft := l / 0x1_0000 / 0x400;
      Granted(
        Xor(l % 0x1_0000 * 0x1_0000 + r % 0x1_0000, uidRight / 0x1000 % 0x1_0000_0000),
        ToBigEndian(uidLeft, 4) + ToBigEndian(uidRight, 6))
  }

  lemma Pow38()
    ensures Pow2(38) == P38 && Pow2(48) == P48
  {
    Pow2Words();
    assert Pow2(6) == 64;
    Pow2Add(6, 32);
    Pow2Add(32, 16);
  }

  lemma JoinUid(uid: Uid)
    ensures Or(uid % P38, uid / P38 % 0x400 * P38) == uid % P48
  {
    hide Or, Pow2;
    Pow38();
    OrComm(uid % P38, uid / P38 % 0x400 * P38);
    OrDisjoint(uid / P38 % 0x400, uid % P38, 38);
  }

  lemma {:induction false} ToBigEndianSplit(x: nat, y: nat, m: nat, n: nat)
    requires y < Pow2(8 * n)
    ensures ToBigEndian(x * Pow2(8 * n) + y, m + n) == ToBigEndian(x, m) + ToBigEndian(y, n)
    decreases n
  {
    hide Pow2;
    if n == 0 {
      Pow2Zero();
      assert ToBigEndian(x, m) + [] == ToBigEndian(x, m);
    } else {
      Pow2Bytes(n);
      var p := Pow2(8 * (n - 1));
      ByteShift(x, y, p);
      ToBigEndianSplit(x, y / 0x100, m, n - 1);
    }
  }

  lemma ByteShift(x: nat, y: nat, p: nat)
    ensures (x * (0x100 * p) + y) / 0x100 == x * p + y / 0x100
    ensures (x * (0x100 * p) + y) % 0x100 == y % 0x100
  {
    assert x * (0x100 * p) == 0x100 * (x * p);
  }

  // The numbers of an access code are read as the identifiers they were made from.
  lemma AccessRoundTrip(cid: word32, uid: Uid)
    ensures ReadAccess(AccessLeft(cid, uid), AccessRight(cid, uid)) == Granted(cid, ToBigEndian(uid, 10))
  {
    hide Or, Xor, Parity, ToBigEndian, Pow2, MaskedCid;
    var x := MaskedCid(cid, uid);
    var l, r := uid / P38 * 0x1_0000 + x / 0x1_0000, uid % P38 * 0x1_0000 + x % 0x1_0000;
    EvenParity(l);
    EvenParity(r);
    assert l / 0x1_0000 == uid / P38 && r / 0x1_0000 == uid % P38;
    JoinUid(uid);
    Pow38();
    UidParts(uid);
    CidBack(cid, uid);
    assert l % 0x1_0000 * 0x1_0000 + r % 0x1_0000 == x;
    ToBigEndianSplit(uid / P48, uid % P48, 4, 6);
  }

  lemma UidParts(uid: Uid)
    ensures uid / P38 / 0x400 == uid / P48
    ensures uid % P48 / 0x1000 % 0x1_0000_0000 == uid / 0x1000 % 0x1_0000_0000
    ensures uid / P48 * P48 + uid % P48 == uid
  {
    var q, r := uid / P48, uid % P48;
    SplitUnique(q * 0x400 + r / P38, r % P38, P38);
    var x := r / 0x1000;
    SplitUnique(q * 0x10_0000_0000 + x, r % 0x1000, 0x1000);
    SplitUnique(q * 0x10 + x / 0x1_0000_0000, x % 0x1_0000_0000, 0x1_0000_0000);
  }

  lemma CidBack(cid: word32, uid: Uid)
    ensures Xor(MaskedCid(cid, uid), uid / 0x1000 % 0x1_0000_0000) == cid
  {
    hide Xor;
    XorCancel(cid, uid / 0x1000 % 0x1_0000_0000);
  }

  // The printed access code passes the player's check and carries both identifiers.
  lemma AccessCodeReads(cid: word32, uid: Uid)
    ensures var code := AccessCode(cid, uid);
      && WellFormed(code) && |Plain(code)| == 25
      && Value(Plain(code)[..13]).Some? && Value(Plain(code)[13..]).Some?
      && ReadAccess(Value(Plain(code)[..13]).value, Value(Plain(code)[13..]).value)
         == Granted(cid, ToBigEndian(uid, 10))
  {
    hide WellFormed, Plain, Value, ReadAccess, AccessLeft, AccessRight, Power24;
    AccessBounds(cid, uid);
    PowerBound(13);
    FormatReads(AccessLeft(cid, uid), AccessRight(cid, uid));
    AccessRoundTrip(cid, uid);
  }

  // What the tool reads from the two numbers; an identifier may be of any size.
  function ToolAccess(left: nat, right: nat): Option<(nat, nat)> {
    if Parity(left) == 1 || Parity(right) == 1 then None
    else
      var l, r := left / 2, right / 2;
      var uid := Or(l / 0x1_0000 * P38, r / 0x1_0000 % P38);
      Some((Xor(l % 0x1_0000 * 0x1_0000 + r % 0x1_0000, uid / 0x1000 % 0x1_0000_0000), uid))
  }

  // Both refuse, or both read the same identifiers.
  predicate SameAccess(a: Access, t: Option<(nat, nat)>) {
    match a
    case InvalidKey => t.None?
    case Granted(cid, uidBytes) => t.Some? && cid == t.value.0 && BigEndian(uidBytes) == t.value.1
  }

  // The numbers have no more digits than those of an access code, but for one that makes no difference.
  predicate InRange(left: nat, right: nat) {
    left < 0x800_0000_0000_0000 && (right < 0x80_0000_0000_0000 || left / 0x2_0000 % 2 == 1)
  }

  // The part of a number that carries digits of the user identifier.
  function UidPart(n: nat): nat { n / 2 / 0x1_0000 }

  // The user identifier as the player and as the tool make it of these parts.
  function PlayerUid(a: nat, b: nat): nat {
    BigEndian(ToBigEndian(a / 0x400, 4) + ToBigEndian(Or(b, a % 0x400 * P38), 6))
  }

  function ToolUid(a: nat, b: nat): nat { Or(a * P38, b % P38) }

  // Player and tool read the same from two numbers exactly if these are in range.
  lemma CodecsAgree(left: nat, right: nat)
    requires right < 0x100_0000_0000_0000
    ensures SameAccess(ReadAccess(left, right), ToolAccess(left, right))
            <==> Parity(left) != 0 || Parity(right) != 0 || InRange(left, right)
  {
    hide *;
    ParityRange(left);
    ParityRange(right);
    RangeParts(left, right);
    BothRead(left, right);
    UidNumbers(UidPart(left), UidPart(right));
  }

  lemma BothRead(left: nat, right: nat)
    requires Parity(left) <= 1 && Parity(right) <= 1 && UidPart(right) / P38 <= 1
    ensures SameAccess(ReadAccess(left, right), ToolAccess(left, right))
      <==> Parity(left) != 0 || Parity(right) != 0
           || PlayerUid(UidPart(left), UidPart(right)) == ToolUid(UidPart(left), UidPart(right))
  {
    hide Or, Xor, Parity, ToBigEndian, BigEndian;
    var a, b := UidPart(left), UidPart(right);
    PlayerReads(a, b);
    SameMask(a / 0x400, Or(b, a % 0x400 * P38), ToolUid(a, b));
  }

  // The same identifier masks the same.
  lemma SameMask(x: nat, y: nat, uid: nat)
    requires y < P48
    ensures x % 0x1_0000_0000 * P48 + y == uid ==> y / 0x1000 % 0x1_0000_0000 == uid / 0x1000 % 0x1_0000_0000
  {
    var high := x % 0x1_0000_0000;
    if high * P48 + y == uid {
      SplitUnique(high, y, P48);
      UidParts(uid);
    }
  }

  lemma PlayerReads(a: nat, b: nat)
    requires b / P38 <= 1
    ensures var uidRight := Or(b, a % 0x400 * P38);
      && uidRight == Or(b / P38, a % 0x400) * P38 + b % P38 && uidRight < P48 && Or(b / P38, a % 0x400) < 0x400
      && PlayerUid(a, b) == a / 0x400 % 0x1_0000_0000 * P48 + uidRight
  {
    hide Or, ToBigEndian, BigEndian, Pow2;
    Pow38();
    assert b == b / P38 * P38 + b % P38;
    OrHigh(b / P38, b % P38, a % 0x400, 38);
    OrOne(a % 0x400);
    OrZero(a % 0x400);
    TenBytes(a / 0x400, Or(b, a % 0x400 * P38));
  }

  lemma TenBytes(x: nat, y: nat)
    requires y < P48
    ensures BigEndian(ToBigEndian(x, 4) + ToBigEndian(y, 6)) == x % 0x1_0000_0000 * P48 + y
  {
    hide ToBigEndian, BigEndian, Pow2;
    Pow38();
    Pow2Words();
    BigEndianConcat(ToBigEndian(x, 4), ToBigEndian(y, 6));
    BigEndianLow(x, 4);
    BigEndianRoundTrip(y, 6);
  }

  lemma {:induction false} BigEndianLow(x: nat, n: nat)
    ensures BigEndian(ToBigEndian(x, n)) == x % Pow2(8 * n)
  {
    if n == 0 {
      Pow2Zero();
    } else {
      var s := ToBigEndian(x, n);
      assert s[..n - 1] == ToBigEndian(x / 0x100, n - 1);
      BigEndianLow(x / 0x100, n - 1);
      Pow2Bytes(n);
      LowByte(x, Pow2(8 * (n - 1)));
    }
  }

  lemma LowByte(x: nat, p: nat)
    requires 0 < p
    ensures x % (0x100 * p) == x / 0x100 % p * 0x100 + x % 0x100
  {
    var q, r := x / 0x100 / p, x / 0x100 % p;
    var low := r * 0x100 + x % 0x100;
    assert x / 0x100 == q * p + r && x == (q * p + r) * 0x100 + x % 0x100;
    assert (q * p) * 0x100 == q * (0x100 * p);
    assert low < 0x100 * p;
    SplitUnique(q, low, 0x100 * p);
  }

  lemma OrOne(k: nat)
    ensures Or(1, k) == if k % 2 == 1 then k else k + 1
  {
    OrZero(k / 2);
    OrUnfold(1, k);
  }

  // The two identifiers are the same exactly if the player loses nothing of the first number, and of the second
  // at most a digit that the first one has as well.
  lemma UidNumbers(a: nat, b: nat)
    requires b / P38 <= 1
    ensures PlayerUid(a, b) == ToolUid(a, b) <==> a < 0x400_0000_0000 && (b / P38 == 0 || a % 2 == 1)
  {
    hide Or, Pow2, PlayerUid;
    Pow38();
    PlayerReads(a, b);
    OrDisjoint(a, b % P38, 38);
    OrOne(a % 0x400);
    OrZero(a % 0x400);
    SameNumber(a / 0x400, a / 0x400 % 0x1_0000_0000, a % 0x400, Or(b / P38, a % 0x400), b % P38);
    FirstParts(a);
  }

  lemma SameNumber(h: nat, i: nat, k: nat, o: nat, u: nat)
    requires k < 0x400 && o < 0x400
    ensures i * P48 + (o * P38 + u) == (h * 0x400 + k) * P38 + u <==> h == i && k == o
  {
  }

  lemma FirstParts(a: nat)
    ensures a == a / 0x400 * 0x400 + a % 0x400 && a % 0x400 % 2 == a % 2
    ensures a / 0x400 % 0x1_0000_0000 == a / 0x400 <==> a < 0x400_0000_0000
  {
  }

  lemma RangeParts(left: nat, right: nat)
    requires right < 0x100_0000_0000_0000
    ensures var a, b := UidPart(left), UidPart(right);
      b / P38 <= 1 && (InRange(left, right) <==> a < 0x400_0000_0000 && (b / P38 == 0 || a % 2 == 1))
  {
    assert UidPart(left) == left / 0x2_0000 && UidPart(right) == right / 0x2_0000;
  }

  // ----- Requests: every byte masked with the one before -----

  function Prefixed(s: seq<byte>): (t: seq<byte>)
    ensures |t| == |s|
  {
    if |s| <= 1 then s
    else
      var t := Prefixed(s[..|s| - 1]);
      t + [XorByte(s[|s| - 1], t[|s| - 2])]
  }

  function Unprefixed(t: seq<byte>): (s: seq<byte>)
    ensures |s| == |t|
  {
    seq(|t|, i requires 0 <= i < |t| => if i == 0 then t[0] else XorByte(t[i], t[i - 1]))
  }

  lemma UnprefixedAppend(t: seq<byte>, b: byte)
    requires t != []
    ensures Unprefixed(t + [b]) == Unprefixed(t) + [XorByte(b, t[|t| - 1])]
  {
    hide XorByte;
  }

  lemma {:induction false} PrefixedBack(s: seq<byte>)
    ensures Unprefixed(Prefixed(s)) == s
  {
    hide Xor;
    if |s| > 1 {
      var init := s[..|s| - 1];
      var last, t := s[|s| - 1], Prefixed(init);
      PrefixedBack(init);
      XorCancel(last, t[|s| - 2]);
      assert Prefixed(s) == t + [XorByte(last, t[|s| - 2])];
      hide Prefixed, XorByte;
      UnprefixedAppend(t, XorByte(last, t[|s| - 2]));
      assert s == init + [last];
    }
  }

  function RequestBytes(stamp: word32, cid: word32, uidBytes: seq<byte>): seq<byte> {
    ToLittleEndian(stamp, 4) + ToLittleEndian(cid, 4) + uidBytes
  }

  datatype RequestFields = RequestFields(cid: nat, uid: nat, stamp: nat)

  // What the service reads.
  function ReadRequest(request: seq<byte>): RequestFields
    requires |request| == REQUEST_SIZE
  {
    var b := Unprefixed(request);
    RequestFields(LittleEndian(b[4..8]), BigEndian(b[8..18]), LittleEndian(b[..4]))
  }

  lemma RequestReads(stamp: word32, cid: word32, uid: Uid)
    ensures var request := Prefixed(RequestBytes(stamp, cid, ToBigEndian(uid, 10)));
      |request| == REQUEST_SIZE && ReadRequest(request) == RequestFields(cid, uid, stamp)
  {
    hide Prefixed, Unprefixed, ToLittleEndian, LittleEndian, ToBigEndian, BigEndian, Pow2;
    var b := RequestBytes(stamp, cid, ToBigEndian(uid, 10));
    PrefixedBack(b);
    assert b[..4] == ToLittleEndian(stamp, 4) && b[4..8] == ToLittleEndian(cid, 4) && b[8..18] == ToBigEndian(uid, 10);
    Pow2Words();
    Pow2Add(16, 64);
    LittleEndianRoundTrip(stamp, 4);
    LittleEndianRoundTrip(cid, 4);
    BigEndianRoundTrip(uid, 10);
  }

  // ----- The service -----

  datatype Reply = Response(bytes: seq<byte>) | FromTheFuture | Stale | Denied

  function Hash(request: seq<byte>): nat
    requires |request| == REQUEST_SIZE
  {
    Xor(Xor(BigEndian(request[..14]), BigEndian(request[2..16])), BigEndian(request[4..18]))
  }

  // The time stamp of a request is inside the service's window.
  predicate InWindow(stamp: nat, now: nat) { stamp - now <= 2 * 60 && now - stamp <= 15 * 60 }

  function Serve(request: seq<byte>, now: word32, access: (nat, nat) -> bool, key: nat): Reply
    requires |request| == REQUEST_SIZE
  {
    var f := ReadRequest(request);
    if f.stamp - now > 2 * 60 then FromTheFuture
    else if now - f.stamp > 15 * 60 then Stale
    else if !access(f.uid, f.cid) then Denied
    else Response(ToBigEndian(Xor(key, Hash(request)), RESPONSE_SIZE))
  }

  // A request is answered if and only if it is neither more than two minutes ahead of the service's clock nor more than
  // a quarter of an hour behind it and the directory grants its user its content; the clock is looked at first.
  lemma ServedExactly(stamp: word32, cid: word32, uid: Uid, now: word32, access: (nat, nat) -> bool, key: nat)
    ensures var request := Prefixed(RequestBytes(stamp, cid, ToBigEndian(uid, 10)));
      && |request| == 18
      && var reply := Serve(request, now, access, key);
      && (reply.Response? <==> stamp <= now + 120 && now <= stamp + 900 && access(uid, cid))
      && (reply.FromTheFuture? <==> stamp > now + 120)
      && (reply.Stale? <==> now > stamp + 900)
      && (reply.Denied? <==> stamp <= now + 120 && now <= stamp + 900 && !access(uid, cid))
  {
    hide Prefixed, RequestBytes, ReadRequest, Hash, ToBigEndian, Xor;
    RequestReads(stamp, cid, uid);
  }

  // The mask of a response, byte by byte.
  function ResponseMask(request: seq<byte>): (m: seq<byte>)
    requires |request| == REQUEST_SIZE
    ensures |m| == RESPONSE_SIZE
  {
    XorBytes(XorBytes(request[..14], request[2..16]), request[4..18])
  }

  lemma HashIsMask(request: seq<byte>)
    requires |request| == REQUEST_SIZE
    ensures Hash(request) == BigEndian(ResponseMask(request)) < Pow2(112)
  {
    hide Xor, BigEndian, Pow2;
    BigEndianXor(request[..14], request[2..16]);
    BigEndianXor(XorBytes(request[..14], request[2..16]), request[4..18]);
    BigEndianBound(ResponseMask(request));
  }

  // Unmasking the response byte by byte yields the key.
  lemma ResponseUnmasks(request: seq<byte>, key: nat)
    requires |request| == REQUEST_SIZE && key < Pow2(112)
    ensures XorBytes(ToBigEndian(Xor(key, Hash(request)), RESPONSE_SIZE), ResponseMask(request))
         == ToBigEndian(key, RESPONSE_SIZE)
  {
    hide Xor, BigEndian, ToBigEndian, Pow2, ResponseMask, Hash;
    HashIsMask(request);
    ToBigEndianRoundTrip(ResponseMask(request));
    ToBigEndianXor(key, Hash(request), RESPONSE_SIZE);
    XorBytesCancel(ToBigEndian(key, RESPONSE_SIZE), ResponseMask(request));
  }

  // ----- Decimal codes -----

  function DigitSum(n: nat): nat {
    if n == 0 then 0 else n % 10 + DigitSum(n / 10)
  }

  function Complement(n: nat): (c: nat)
    ensures c < 10
  {
    (10 - DigitSum(n) % 10) % 10
  }

  // The digit that makes the sum of the digits a multiple of ten.
  lemma ComplementDigit(n: nat, d: nat)
    requires d < 10
    ensures (DigitSum(n) + d) % 10 == 0 <==> d == Complement(n)
  {
    hide DigitSum;
  }

  method DecimalComplement(n: nat) returns (c: nat)
    ensures c == Complement(n)
  {
    var sum, rest := 0, n;
    while rest != 0
      invariant sum + DigitSum(rest) == DigitSum(n)
    {
      sum := sum + rest % 10;
      rest := rest / 10;
    }
    return (10 - sum % 10) % 10;
  }

  function Decimal(d: nat): char
    requires d < 10
  {
    (48 + d) as char
  }

  predicate IsDecimal(c: char) { '0' <= c <= '9' }

  function DecimalValue(c: char): nat
    requires IsDecimal(c)
  {
    c as int - 48
  }

  function Written(n: nat, length: nat): (s: seq<char>)
    ensures |s| == length
    ensures forall i | 0 <= i < length :: IsDecimal(s[i])
    decreases length
  {
    if length == 0 then [] else Written(n / 10, length - 1) + [Decimal(n % 10)]
  }

  predicate AllDecimal(s: seq<char>) { forall i | 0 <= i < |s| :: IsDecimal(s[i]) }

  function Number(s: seq<char>): nat
    requires AllDecimal(s)
  {
    if s == [] then 0 else Number(s[..|s| - 1]) * 10 + DecimalValue(s[|s| - 1])
  }

  function Power10(n: nat): (p: nat)
    ensures p >= 1
  {
    if n == 0 then 1 else 10 * Power10(n - 1)
  }

  lemma {:induction false} WrittenNumber(n: nat, length: nat)
    requires n < Power10(length)
    ensures Number(Written(n, length)) == n
    decreases length
  {
    if length != 0 {
      WrittenNumber(n / 10, length - 1);
      assert Written(n, length)[..length - 1] == Written(n / 10, length - 1);
    }
  }

  // A word with its complement before it.
  function GroupNumber(w: word16): nat { Complement(w) * 100000 + w }

  function Group(w: word16): (s: seq<char>)
    ensures |s| == 6
  {
    Written(GroupNumber(w), 6)
  }

  lemma DigitSumStep(x: nat, d: nat)
    requires d < 10
    ensures DigitSum(10 * x + d) == DigitSum(x) + d
  {
    assert (10 * x + d) / 10 == x && (10 * x + d) % 10 == d;
  }

  lemma {:induction false} DigitSumJoin(a: nat, b: nat, k: nat)
    requires b < Power10(k)
    ensures DigitSum(a * Power10(k) + b) == DigitSum(a) + DigitSum(b)
    decreases k
  {
    hide DigitSum;
    if k == 0 {
      assert b == 0 && a * Power10(0) == a;
      NoDigits();
    } else {
      var p := Power10(k - 1);
      assert a * Power10(k) + b == 10 * (a * p + b / 10) + b % 10;
      DigitSumStep(a * p + b / 10, b % 10);
      DigitSumStep(b / 10, b % 10);
      DigitSumJoin(a, b / 10, k - 1);
    }
  }

  lemma NoDigits()
    ensures DigitSum(0) == 0
  {
  }

  // A printed group is accepted, and holds the word.
  lemma GroupAccepted(w: word16)
    ensures AllDecimal(Group(w)) && Number(Group(w)) == GroupNumber(w)
    ensures Complement(GroupNumber(w)) == 0 && GroupNumber(w) % 100000 == w
  {
    hide *;
    GroupRange(w);
    CheckDigit(w);
    WrittenGroup(w);
  }

  lemma GroupRange(w: word16)
    ensures GroupNumber(w) < 1000000 && GroupNumber(w) % 100000 == w
  {
    hide Complement;
  }

  lemma WrittenGroup(w: word16)
    ensures AllDecimal(Group(w)) && Number(Group(w)) == GroupNumber(w)
  {
    assert Power10(6) == 1000000;
    GroupRange(w);
    hide Written, Number, Power10, GroupNumber;
    WrittenNumber(GroupNumber(w), 6);
  }

  lemma CheckDigit(w: word16)
    ensures Complement(GroupNumber(w)) == 0
  {
    hide DigitSum;
    DigitSumGroup(Complement(w), w);
  }

  lemma DigitSumGroup(c: nat, w: nat)
    requires c < 10 && w < 100000
    ensures DigitSum(c * 100000 + w) == c + DigitSum(w)
  {
    assert Power10(5) == 100000;
    hide *;
    DigitSumJoin(c, w, 5);
    DigitSumStep(0, c);
    NoDigits();
  }

  function TextSum(s: seq<char>): nat
    requires AllDecimal(s)
  {
    if s == [] then 0 else TextSum(s[..|s| - 1]) + DecimalValue(s[|s| - 1])
  }

  lemma {:induction false} SumOfText(s: seq<char>)
    requires AllDecimal(s)
    ensures DigitSum(Number(s)) == TextSum(s)
  {
    if s != [] {
      SumOfText(s[..|s| - 1]);
      DigitSumStep(Number(s[..|s| - 1]), DecimalValue(s[|s| - 1]));
    }
  }

  lemma {:induction false} TextSumUpdate(s: seq<char>, i: nat, c: char)
    requires AllDecimal(s) && i < |s| && IsDecimal(c)
    ensures TextSum(s[i := c]) == TextSum(s) - DecimalValue(s[i]) + DecimalValue(c)
  {
    var t := s[i := c];
    if i == |s| - 1 {
      assert t[..|s| - 1] == s[..|s| - 1];
    } else {
      TextSumUpdate(s[..|s| - 1], i, c);
      assert t[..|s| - 1] == s[..|s| - 1][i := c];
    }
  }

  // No change of a single digit goes unnoticed.
  lemma OneDigitChanged(s: seq<char>, i: nat, c: char)
    requires AllDecimal(s) && i < |s| && IsDecimal(c) && c != s[i]
    requires Complement(Number(s)) == 0
    ensures Complement(Number(s[i := c])) != 0
  {
    hide DigitSum, Number, TextSum;
    SumOfText(s);
    SumOfText(s[i := c]);
    TextSumUpdate(s, i, c);
  }

  function WordOf(low: byte, high: byte): word16 { 0x100 * high + low }

  function Words(bytes: seq<byte>): (w: seq<word16>)
    requires |bytes| % 2 == 0
    ensures |w| == |bytes| / 2
  {
    seq(|bytes| / 2, i requires 0 <= i < |bytes| / 2 => WordOf(bytes[2 * i], bytes[2 * i + 1]))
  }

  // The groups with hyphens between.
  function Code(words: seq<word16>): (s: seq<char>)
    requires |words| >= 1
    ensures |s| == 7 * |words| - 1
  {
    if |words| == 1 then Group(words[0])
    else Code(words[..|words| - 1]) + ['-'] + Group(words[|words| - 1])
  }

  lemma {:induction false} GroupAt(words: seq<word16>, i: nat)
    requires i < |words|
    ensures Code(words)[7 * i..7 * i + 6] == Group(words[i])
    ensures i + 1 < |words| ==> Code(words)[7 * i + 6] == '-'
  {
    hide Group;
    var n := |words| - 1;
    if 0 < n {
      if i < n {
        GroupAt(words[..n], i);
        if i + 1 < n {
          assert Code(words)[7 * i + 6] == Code(words[..n])[7 * i + 6];
        }
        assert Code(words)[7 * i..7 * i + 6] == Code(words[..n])[7 * i..7 * i + 6];
      } else {
        assert Code(words)[7 * n..7 * n + 6] == Group(words[n]);
      }
    }
  }

  // A text of n groups.
  predicate IsCode(text: seq<char>, n: nat) {
    && |text| == 7 * n - 1
    && forall i | 0 <= i < 7 * n - 1 :: if i % 7 == 6 then text[i] == '-' else IsDecimal(text[i])
  }

  function GroupOf(text: seq<char>, n: nat, i: nat): nat
    requires IsCode(text, n) && i < n
  {
    Number(text[7 * i..7 * i + 6])
  }

  // The bytes a code stands for, unless a group is wrong; words are cut to 16 bits.
  function ReadCode(text: seq<char>, n: nat, k: nat): Option<seq<byte>>
    requires IsCode(text, n) && k <= n
  {
    if k == 0 then Some([])
    else
      var rest, g := ReadCode(text, n, k - 1), GroupOf(text, n, k - 1);
      if rest.None? || Complement(g) != 0 then None
      else Some(rest.value + ToLittleEndian(g % 100000 % 0x1_0000, 2))
  }

  function DecimalCode(bytes: seq<byte>): seq<char>
    requires |bytes| % 2 == 0 && |bytes| > 0
  {
    Code(Words(bytes))
  }

  lemma CodeCharacter(words: seq<word16>, g: nat, j: nat)
    requires g < |words| && j < 7 && (j == 6 ==> g + 1 < |words|)
    ensures if j == 6 then Code(words)[7 * g + j] == '-' else IsDecimal(Code(words)[7 * g + j])
  {
    hide Code;
    GroupAt(words, g);
    if j != 6 {
      assert Code(words)[7 * g + j] == Code(words)[7 * g..7 * g + 6][j] == Group(words[g])[j];
    }
  }

  lemma CodeForm(bytes: seq<byte>)
    requires |bytes| % 2 == 0 && |bytes| > 0
    ensures IsCode(DecimalCode(bytes), |bytes| / 2)
  {
    hide Code, IsDecimal, Words;
    var words := Words(bytes);
    var text := Code(words);
    forall i | 0 <= i < 7 * |words| - 1
      ensures if i % 7 == 6 then text[i] == '-' else IsDecimal(text[i])
    {
      CodeCharacter(words, i / 7, i % 7);
    }
  }

  lemma {:induction false} CodeReads(bytes: seq<byte>, k: nat)
    requires |bytes| % 2 == 0 && |bytes| > 0 && k <= |bytes| / 2
    ensures IsCode(DecimalCode(bytes), |bytes| / 2)
    ensures ReadCode(DecimalCode(bytes), |bytes| / 2, k) == Some(bytes[..2 * k])
    decreases k
  {
    hide IsCode, Group, Written, Code, Complement, Number, GroupNumber;
    CodeForm(bytes);
    if k != 0 {
      CodeReads(bytes, k - 1);
      GroupReads(bytes, k - 1);
      WordBytes(bytes, k - 1);
      hide Words, ToLittleEndian;
    }
  }

  lemma GroupReads(bytes: seq<byte>, i: nat)
    requires |bytes| % 2 == 0 && i < |bytes| / 2 && IsCode(DecimalCode(bytes), |bytes| / 2)
    ensures var g := GroupOf(DecimalCode(bytes), |bytes| / 2, i);
      Complement(g) == 0 && g % 100000 % 0x1_0000 == Words(bytes)[i]
  {
    hide IsCode, Group, Written, Code, Complement, Number, GroupNumber, Words;
    var words := Words(bytes);
    GroupAt(words, i);
    GroupAccepted(words[i]);
    GroupMeans(words[i]);
  }

  lemma GroupMeans(w: word16)
    ensures AllDecimal(Group(w)) && Number(Group(w)) % 100000 % 0x1_0000 == w && Complement(Number(Group(w))) == 0
  {
    hide Group, Complement, Number, GroupNumber;
    GroupAccepted(w);
  }

  lemma WordBytes(bytes: seq<byte>, i: nat)
    requires |bytes| % 2 == 0 && 2 * i + 1 < |bytes|
    ensures bytes[..2 * i] + ToLittleEndian(Words(bytes)[i], 2) == bytes[..2 * (i + 1)]
  {
    var w := Words(bytes)[i];
    assert ToLittleEndian(w, 2) == [w % 0x100] + ToLittleEndian(w / 0x100, 1);
    assert ToLittleEndian(w / 0x100, 1) == [w / 0x100 % 0x100] + ToLittleEndian(w / 0x100 / 0x100, 0);
    assert bytes[..2 * (i + 1)] == bytes[..2 * i] + [bytes[2 * i], bytes[2 * i + 1]];
  }

  // Any byte string printed as a decimal code is well formed and read back.
  lemma DecimalCodeReads(bytes: seq<byte>)
    requires |bytes| % 2 == 0 && |bytes| > 0
    ensures IsCode(DecimalCode(bytes), |bytes| / 2)
    ensures ReadCode(DecimalCode(bytes), |bytes| / 2, |bytes| / 2) == Some(bytes)
  {
    hide IsCode, ReadCode, DecimalCode;
    CodeReads(bytes, |bytes| / 2);
    assert bytes[..2 * (|bytes| / 2)] == bytes;
  }

  // ----- The whole exchange -----

  // For every content, user and key, within the service's window: the access code grants,
  // the request code is served and the confirmation code unmasks to the key.
  lemma UnlockChain(cid: word32, uid: Uid, stamp: word32, now: word32, key: nat, access: (nat, nat) -> bool)
    requires key < Pow2(112) && access(uid, cid) && InWindow(stamp, now)
    ensures var code := AccessCode(cid, uid);
      && WellFormed(code) && |Plain(code)| == 25
      && Value(Plain(code)[..13]).Some? && Value(Plain(code)[13..]).Some?
      && ReadAccess(Value(Plain(code)[..13]).value, Value(Plain(code)[13..]).value)
         == Granted(cid, ToBigEndian(uid, 10))
    ensures var sent := Prefixed(RequestBytes(stamp, cid, ToBigEndian(uid, 10)));
      && |sent| == REQUEST_SIZE
      && IsCode(DecimalCode(sent), 9) && ReadCode(DecimalCode(sent), 9, 9) == Some(sent)
      && Serve(sent, now, access, key).Response?
      && var response := Serve(sent, now, access, key).bytes;
         && |response| == RESPONSE_SIZE
         && IsCode(DecimalCode(response), 7) && ReadCode(DecimalCode(response), 7, 7) == Some(response)
         && XorBytes(response, ResponseMask(sent)) == ToBigEndian(key, RESPONSE_SIZE)
  {
    hide WellFormed, Plain, Value, ReadAccess, AccessCode, Prefixed, RequestBytes, IsCode, ReadCode, DecimalCode;
    hide ReadRequest, Hash, ResponseMask, ToBigEndian, Pow2, Xor;
    AccessCodeReads(cid, uid);
    RequestReads(stamp, cid, uid);
    var sent := Prefixed(RequestBytes(stamp, cid, ToBigEndian(uid, 10)));
    DecimalCodeReads(sent);
    var response := ToBigEndian(Xor(key, Hash(sent)), RESPONSE_SIZE);
    DecimalCodeReads(response);
    ResponseUnmasks(sent, key);
  }
}
