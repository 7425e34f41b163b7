/** Encrypted content (player/src/enc/enc.c): key store, decryption in place, access and the state machine.

  Snapshots of the content and of the key store are values; the functions say what
  each operation makes of them, and the classes, which update them in place as the
  program does, are proved to do just that. What the key provider, the wizard and the
  state storage answer is arbitrary input.
*/
module Enc {
  import opened Bits
  import opened Bytes
  import opened Crc
  import opened Stream
  import opened Wrappers

  const ENOENT: int := 2
  const EACCES: int := 13
  const EINVAL: int := 22
  const CONTINUE: int := 1

  const MACHINE_ID_SIZE: nat := 16
  const KEY_LENGTH_MAX: nat := 16

  datatype Phase = INITIALIZE | READ | VERIFY | COMPLETE

  datatype Content = Content(cipher: Cipher, crc: word32, phase: Phase, size: nat, bytes: seq<byte>)

  // The size of the content fits the program's int.
  ghost predicate Valid(c: Content) { c.size <= |c.bytes| < 0x8000_0000 }

  // ----- The key store -----

  type MachineId = id: seq<byte> | |id| == MACHINE_ID_SIZE witness seq(16, _ => 0)

  datatype KeyStore = KeyStore(machineId: Option<MachineId>, saved: map<word32, seq<byte>>)

  // A key as it is saved, and back.
  function Bind(key: seq<byte>, id: MachineId): (bound: seq<byte>)
    ensures |bound| == |key|
  {
    seq(|key|, i requires 0 <= i < |key| => XorByte(key[i], id[i % MACHINE_ID_SIZE]))
  }

  function LoadKey(store: KeyStore, cid: word32, size: nat): Option<seq<byte>> {
    if store.machineId.Some? && cid in store.saved && |store.saved[cid]| == size
    then Some(Bind(store.saved[cid], store.machineId.value))
    else None
  }

  // works: whether the platform managed to save the state.
  function SaveKey(store: KeyStore, cid: word32, key: seq<byte>, works: bool): KeyStore {
    if |key| <= KEY_LENGTH_MAX && store.machineId.Some? && works
    then store.(saved := store.saved[cid := Bind(key, store.machineId.value)])
    else store
  }

  lemma BindTwice(key: seq<byte>, id: MachineId)
    ensures Bind(Bind(key, id), id) == key
  {
    hide Xor;
    forall i | 0 <= i < |key| ensures Bind(Bind(key, id), id)[i] == key[i] {
      XorCancel(key[i], id[i % MACHINE_ID_SIZE]);
    }
  }

  // A key saved on one machine is the key on another one if and only if their identifiers agree where it was bound.
  lemma BoundToMachine(key: seq<byte>, id: MachineId, other: MachineId)
    requires |key| <= MACHINE_ID_SIZE
    ensures Bind(Bind(key, id), other) == key <==> id[..|key|] == other[..|key|]
  {
    hide Xor;
    forall i | 0 <= i < |key| ensures Bind(Bind(key, id), other)[i] == key[i] <==> id[i] == other[i] {
      var b := XorByte(key[i], id[i]);
      XorCancel(key[i], id[i]);
      XorComm(b, other[i]);
      XorComm(b, id[i]);
      XorCancel(other[i], b);
      XorCancel(id[i], b);
    }
    forall i | 0 <= i < |key| ensures id[..|key|][i] == id[i] && other[..|key|][i] == other[i] {
    }
    if Bind(Bind(key, id), other) == key {
      assert id[..|key|] == other[..|key|];
    }
  }

  // ----- Decryption in place -----

  predicate Accepts(c: Content, key: seq<byte>)
    requires c.size <= |c.bytes|
  {
    Usable(c.cipher, c.bytes[..c.size], key) && Verified(c.cipher, c.bytes[..c.size], key, c.crc)
  }

  // The plain text replaces the ciphertext, and for the block ciphers the last four
  // bytes of the stored data receive its length.
  function Decrypted(c: Content, key: seq<byte>): (d: Content)
    requires c.size <= |c.bytes| && Accepts(c, key)
  {
    var text := PlainText(c.cipher, c.bytes[..c.size], key);
    var bytes := text + c.bytes[|text|..];
    if c.cipher == XOR then c.(bytes := bytes)
    else c.(size := |text|, bytes := bytes[..c.size - 4] + ToLittleEndian(|text|, 4) + bytes[c.size..])
  }

  // What the key provider answers to one query.
  datatype Provider = Provider(initialize: int, transform: int, key: seq<byte>, save: bool, saveWorks: bool)

  predicate Complete(p: Provider) { |p.key| == KEY_LENGTH_MAX }

  // One attempt to decrypt, with the saved or with the provided key.
  function Attempt(c: Content, store: KeyStore, load: bool, p: Provider): (Content, KeyStore, int)
    requires c.size <= |c.bytes| && Complete(p)
  {
    var key := if load then LoadKey(store, c.crc, KeyLength(c.cipher)) else Some(p.key[..KeyLength(c.cipher)]);
    if load && key.None? then (c, store, -ENOENT)
    else if !load && p.transform < 0 then (c, store, p.transform)
    else if !Usable(c.cipher, c.bytes[..c.size], key.value) then (c, store, -EINVAL)
    else if !Accepts(c, key.value) then (c, store, -EACCES)
    else
      (Decrypted(c, key.value),
       if !load && p.save then SaveKey(store, c.crc, key.value, p.saveWorks) else store,
       0)
  }

  // ----- Access and the state machine -----

  function Access(cipher: Cipher, bytes: seq<byte>, length: nat, crc: word32): (Content, int)
    requires length <= |bytes|
    requires cipher != XOR ==> 4 <= length
  {
    var c := Content(cipher, crc, INITIALIZE, length, bytes);
    if cipher == XOR then
      if Crc32(bytes[..length]) == crc then (c.(phase := COMPLETE), 0) else (c, CONTINUE)
    else
      var size := LittleEndian(bytes[length - 4..length]);
      if length > size && Crc32(bytes[..size]) == crc then (c.(phase := COMPLETE, size := size), 0)
      else (c, CONTINUE)
  }

  // What the wizard reports: nothing yet, the user gave up, or a page was left forwards.
  datatype Wizard = Incomplete | Aborted | NextPage(last: bool)

  function Handle(c: Content, store: KeyStore, p: Provider, w: Wizard): (Content, KeyStore, int)
    requires c.size <= |c.bytes| && Complete(p)
  {
    match c.phase
    case INITIALIZE =>
      var (c', store', status) := Attempt(c, store, true, p);
      if status == 0 then (c'.(phase := COMPLETE), store', CONTINUE)
      else if p.initialize < 0 then (c', store', p.initialize)
      else if p.initialize == 0 then (c'.(phase := VERIFY), store', CONTINUE)
      else (c'.(phase := READ), store', CONTINUE)
    case READ =>
      (match w
       case Incomplete => (c, store, CONTINUE)
       case Aborted => (c, store, -EACCES)
       case NextPage(last) => (if last then c.(phase := COMPLETE) else c, store, CONTINUE))
    case VERIFY =>
      var (c', store', status) := Attempt(c, store, false, p);
      if status < 0 then (c', store', status) else (c'.(phase := COMPLETE), store', CONTINUE)
    case COMPLETE => (c, store, 0)
  }

  // ----- What a decryption leaves behind -----

  ghost predicate Authentic(c: Content) { c.size <= |c.bytes| && Crc32(c.bytes[..c.size]) == c.crc }

  // The recorded length does not touch the plain text, which is the one that was verified.
  lemma DecryptedText(c: Content, key: seq<byte>)
    requires Valid(c) && Accepts(c, key)
    ensures var d := Decrypted(c, key);
      && Valid(d) && |d.bytes| == |c.bytes|
      && d.size == |PlainText(c.cipher, c.bytes[..c.size], key)|
      && d.bytes[..d.size] == PlainText(c.cipher, c.bytes[..c.size], key)
      && d.bytes[c.size..] == c.bytes[c.size..]
      && Authentic(d) && d.crc == c.crc && d.cipher == c.cipher && d.phase == c.phase
    ensures c.cipher != XOR ==>
      && Decrypted(c, key).size + 8 <= c.size
      && LittleEndian(Decrypted(c, key).bytes[c.size - 4..c.size]) == Decrypted(c, key).size
  {
    hide Crc32, PlainText, WellPadded, Usable, ToLittleEndian, LittleEndian, Pow2;
    var text := PlainText(c.cipher, c.bytes[..c.size], key);
    var d := Decrypted(c, key);
    assert d.bytes[..|text|] == text;
    if c.cipher != XOR {
      assert d.bytes[c.size - 4..c.size] == ToLittleEndian(|text|, 4);
      Pow2Words();
      LittleEndianRoundTrip(|text|, 4);
    }
  }

  // A failed attempt changes nothing, a successful one leaves verified content.
  lemma AttemptOutcome(c: Content, store: KeyStore, load: bool, p: Provider)
    requires Valid(c) && Complete(p)
    ensures var (c', store', status) := Attempt(c, store, load, p);
      && status <= 0
      && (status < 0 ==> c' == c && store' == store)
      && (status == 0 ==> Authentic(c') && Valid(c') && c'.crc == c.crc && c'.phase == c.phase && c'.cipher == c.cipher)
      && store'.machineId == store.machineId
  {
    hide Crc32, PlainText, WellPadded, Usable, Decrypted, Bind;
    var key := if load then LoadKey(store, c.crc, KeyLength(c.cipher)) else Some(p.key[..KeyLength(c.cipher)]);
    if key.Some? && Usable(c.cipher, c.bytes[..c.size], key.value) && Accepts(c, key.value) {
      DecryptedText(c, key.value);
    }
  }

  // Completion reached without the wizard means verified content.
  lemma CompletionIsVerified(c: Content, store: KeyStore, p: Provider, w: Wizard)
    requires Valid(c) && Complete(p)
    requires c.phase == INITIALIZE || c.phase == VERIFY
    ensures var (c', _, status) := Handle(c, store, p, w);
      && (c'.phase == COMPLETE ==> Authentic(c'))
      && (status < 0 ==> c' == c)
  {
    hide Crc32, Attempt;
    AttemptOutcome(c, store, c.phase == INITIALIZE, p);
  }

  // ----- Whole runs -----

  // The program's own step, or a wizard page handing in what the user entered.
  datatype Step = Handled(p: Provider, w: Wizard) | Submitted(p: Provider)

  // accepted: an attempt succeeded; skipped: the wizard let its last page be left forwards before that.
  datatype Run = Run(c: Content, store: KeyStore, accepted: bool, skipped: bool)

  predicate Allowed(r: Run, s: Step) {
    Complete(s.p) && (s.Submitted? ==> r.c.phase == READ)
  }

  predicate Skips(r: Run, s: Step) {
    r.c.phase == READ && s.Handled? && s.w == NextPage(true) && !r.accepted
  }

  function After(r: Run, s: Step): Run
    requires r.c.size <= |r.c.bytes| && Complete(s.p)
  {
    if s.Submitted? then
      var (c, store, status) := Attempt(r.c, r.store, false, s.p);
      Run(c, store, r.accepted || status == 0, r.skipped)
    else
      var (c, store, status) := Handle(r.c, r.store, s.p, s.w);
      Run(c, store, r.accepted || (c.phase == COMPLETE && r.c.phase != COMPLETE && r.c.phase != READ),
          r.skipped || Skips(r, s))
  }

  // Until a key is accepted the stored bytes stay as they were; from then on the content is authentic.
  ghost predicate RunInvariant(start: Content, r: Run) {
    && Valid(r.c) && r.c.crc == start.crc
    && (r.accepted ==> Authentic(r.c))
    && (!r.accepted ==> r.c.bytes == start.bytes && r.c.size == start.size)
    && (r.c.phase == COMPLETE ==> r.accepted || r.skipped)
  }

  lemma StepKeepsInvariant(start: Content, r: Run, s: Step)
    requires RunInvariant(start, r) && Allowed(r, s)
    ensures RunInvariant(start, After(r, s))
  {
    hide Crc32, Attempt;
    AttemptOutcome(r.c, r.store, false, s.p);
    AttemptOutcome(r.c, r.store, true, s.p);
  }

  ghost predicate Runs(r: Run, steps: seq<Step>, last: Run)
    decreases steps
  {
    if steps == [] then r == last
    else r.c.size <= |r.c.bytes| && Allowed(r, steps[0]) && Runs(After(r, steps[0]), steps[1..], last)
  }

  // In every run completed content is authentic, unless the wizard was left without a key accepted; content
  // not yet accepted is untouched.
  lemma {:induction false} EveryRun(start: Content, r: Run, steps: seq<Step>, last: Run)
    requires RunInvariant(start, r) && Runs(r, steps, last)
    ensures RunInvariant(start, last)
    decreases steps
  {
    hide RunInvariant, After;
    if steps != [] {
      StepKeepsInvariant(start, r, steps[0]);
      EveryRun(start, After(r, steps[0]), steps[1..], last);
    }
  }

  lemma EveryRunFromAccess(cipher: Cipher, bytes: seq<byte>, length: nat, crc: word32, store: KeyStore,
                           steps: seq<Step>, last: Run)
    requires length <= |bytes| < 0x8000_0000 && (cipher != XOR ==> 4 <= length)
    requires Access(cipher, bytes, length, crc).1 == CONTINUE
    requires Runs(Run(Access(cipher, bytes, length, crc).0, store, false, false), steps, last)
    ensures last.c.phase == COMPLETE ==> last.accepted || last.skipped
    ensures Authentic(last.c) <==> last.accepted || Crc32(bytes[..length]) == crc
    ensures last.c.crc == crc
    ensures !last.accepted ==> last.c.bytes == bytes && last.c.size == length
  {
    hide Crc32, Runs;
    EveryRun(Access(cipher, bytes, length, crc).0, Run(Access(cipher, bytes, length, crc).0, store, false, false),
             steps, last);
  }

  // Why the wizard matters: without a key saved, a wizard that is left forwards at once completes the run, and the
  // content is what it was.
  lemma WizardAlone(cipher: Cipher, bytes: seq<byte>, length: nat, crc: word32, store: KeyStore)
    returns (steps: seq<Step>, last: Run)
    requires length <= |bytes| < 0x8000_0000 && (cipher != XOR ==> 4 <= length)
    requires Access(cipher, bytes, length, crc).1 == CONTINUE
    requires LoadKey(store, crc, KeyLength(cipher)).None?
    ensures Runs(Run(Access(cipher, bytes, length, crc).0, store, false, false), steps, last)
    ensures last.c.phase == COMPLETE && !last.accepted && last.c.bytes == bytes
    ensures Crc32(bytes[..length]) != crc ==> !Authentic(last.c)
  {
    hide Crc32, LoadKey, SaveKey, Accepts, Usable, Decrypted, LittleEndian;
    var p := Provider(1, 0, seq(16, _ => 0), false, false);
    var s, t := Handled(p, Incomplete), Handled(p, NextPage(true));
    var r := Run(Access(cipher, bytes, length, crc).0, store, false, false);
    steps, last := [s, t], After(After(r, s), t);
    assert steps[1..] == [t] && steps[1..][1..] == [];
    assert Runs(last, [], last);
  }

  // ----- A key that the provider hands in -----

  function KeyOf(c: Content, p: Provider): seq<byte>
    requires Complete(p)
  {
    p.key[..KeyLength(c.cipher)]
  }

  // The store has no key for the content, or a wrong one.
  predicate NoGoodKey(c: Content, store: KeyStore)
    requires c.size <= |c.bytes|
  {
    var key := LoadKey(store, c.crc, KeyLength(c.cipher));
    key.None? || !Accepts(c, key.value)
  }

  // The content starts with its plain text, and the store has the key of the provider if it was to be saved and could
  // be; every other key of the store is what it was.
  ghost predicate Unlocked(start: Run, p: Provider, end: Run)
    requires Valid(start.c) && Complete(p) && Accepts(start.c, KeyOf(start.c, p))
  {
    var key, text := KeyOf(start.c, p), PlainText(start.c.cipher, start.c.bytes[..start.c.size], KeyOf(start.c, p));
    && end.c.phase == COMPLETE && end.accepted
    && end.c.size == |text| && text <= end.c.bytes && |end.c.bytes| == |start.c.bytes|
    && LoadKey(end.store, start.c.crc, |key|)
       == (if p.save && p.saveWorks && start.store.machineId.Some? then Some(key)
           else LoadKey(start.store, start.c.crc, |key|))
    && forall cid: word32, n: nat | cid != start.c.crc :: LoadKey(end.store, cid, n) == LoadKey(start.store, cid, n)
  }

  lemma AttemptUnlocks(r: Run, p: Provider, q: Phase, end: Run)
    requires Valid(r.c) && Complete(p) && p.transform >= 0 && Accepts(r.c, KeyOf(r.c, p))
    requires var (c, store, _) := Attempt(r.c.(phase := q), r.store, false, p);
      end == Run(c.(phase := COMPLETE), store, true, end.skipped)
    ensures Attempt(r.c.(phase := q), r.store, false, p).2 == 0
    ensures Unlocked(r, p, end)
  {
    hide Crc32, PlainText, WellPadded, Usable, Verified, Bind;
    var key := KeyOf(r.c, p);
    DecryptedText(r.c, key);
    if r.store.machineId.Some? {
      BindTwice(key, r.store.machineId.value);
    }
  }

  // A provider that fails ends the run and changes nothing; one that needs the user leads to the wizard, whose pages
  // may then hand in a key; any other one has its own key tried in the next step.
  lemma ProviderAsked(r: Run, p: Provider, w: Wizard)
    requires Valid(r.c) && Complete(p) && r.c.phase == INITIALIZE && NoGoodKey(r.c, r.store)
    ensures p.initialize < 0 ==> Handle(r.c, r.store, p, w) == (r.c, r.store, p.initialize)
    ensures p.initialize >= 0 ==> Handle(r.c, r.store, p, w).2 == 1
    ensures p.initialize > 0 ==> After(r, Handled(p, w)) == r.(c := r.c.(phase := READ))
    ensures forall q: Provider | Complete(q) :: Allowed(After(r, Handled(p, w)), Submitted(q)) <==> p.initialize > 0
    ensures p.initialize == 0 ==> After(r, Handled(p, w)) == r.(c := r.c.(phase := VERIFY))
  {
    hide Crc32, PlainText, WellPadded, Usable, Verified, Bind;
  }

  // A provider with a key of its own: two steps complete the content if the key is the right one, and otherwise the
  // second step fails and changes nothing.
  lemma ProviderKeyCompletes(r: Run, p: Provider, w: Wizard, q: Provider, v: Wizard)
    requires Valid(r.c) && Complete(p) && Complete(q) && r.c.phase == INITIALIZE && NoGoodKey(r.c, r.store)
    requires p.initialize == 0
    ensures var next := After(r, Handled(p, w));
      if q.transform < 0 then Handle(next.c, next.store, q, v) == (next.c, next.store, q.transform)
      else if !Accepts(r.c, KeyOf(r.c, q)) then
        && (next.c, next.store) == (Handle(next.c, next.store, q, v).0, Handle(next.c, next.store, q, v).1)
        && Handle(next.c, next.store, q, v).2
           == if r.c.cipher == XOR || (r.c.size % 8 == 0 && 16 <= r.c.size) then -13 else -22
      else Handle(next.c, next.store, q, v).2 == 1 && Unlocked(r, q, After(next, Handled(q, v)))
  {
    hide Crc32, PlainText, WellPadded, Verified, Bind, Unlocked;
    ProviderAsked(r, p, w);
    if q.transform >= 0 && Accepts(r.c, KeyOf(r.c, q)) {
      AttemptUnlocks(r, q, VERIFY, After(After(r, Handled(p, w)), Handled(q, v)));
    }
  }

  // A provider that needs the user: a page that hands in the right key and a wizard left forwards complete the content.
  lemma SubmittedKeyCompletes(r: Run, p: Provider, w: Wizard, q: Provider, s: Provider)
    requires Valid(r.c) && Complete(p) && Complete(q) && Complete(s)
    requires r.c.phase == INITIALIZE && NoGoodKey(r.c, r.store)
    requires p.initialize > 0 && q.transform >= 0 && Accepts(r.c, KeyOf(r.c, q))
    ensures var asked := After(r, Handled(p, w));
      var submitted := After(asked, Submitted(q));
      && Allowed(asked, Submitted(q))
      && submitted.c.size <= |submitted.c.bytes|
      && Unlocked(r, q, After(submitted, Handled(s, NextPage(true))))
  {
    hide Crc32, PlainText, WellPadded, Verified, Bind, Unlocked;
    ProviderAsked(r, p, w);
    var asked := After(r, Handled(p, w));
    AttemptOutcome(asked.c, r.store, false, q);
    var submitted := After(asked, Submitted(q));
    AttemptUnlocks(r, q, READ, After(submitted, Handled(s, NextPage(true))));
  }

  // The wizard changes no content. Only a user who gives up ends the run, and only the last page left forwards
  // completes the content.
  lemma WizardAnswers(c: Content, store: KeyStore, p: Provider, w: Wizard)
    requires c.size <= |c.bytes| && Complete(p) && c.phase == READ
    ensures var (c', store', status) := Handle(c, store, p, w);
      && c' == c.(phase := if w == NextPage(true) then COMPLETE else READ) && store' == store
      && status == if w == Aborted then -13 else 1
  {
  }

  // ----- The second access -----

  lemma AccessIsAuthentic(cipher: Cipher, bytes: seq<byte>, length: nat, crc: word32)
    requires length <= |bytes| && (cipher != XOR ==> 4 <= length)
    ensures var (c, status) := Access(cipher, bytes, length, crc);
      && (status == 0 <==> c.phase == COMPLETE)
      && (status == 0 ==> Authentic(c))
      && (status != 0 ==> status == CONTINUE && c.phase == INITIALIZE && c.size == length)
      && c.bytes == bytes
  {
    hide Crc32;
  }

  // Content of a block cipher is recognised exactly when its last four bytes are the length of a text in front of them,
  // the lowest byte first, and that text has the CRC asked for.
  lemma AccessRecognises(cipher: Cipher, bytes: seq<byte>, length: nat, crc: word32, n: nat)
    requires cipher != XOR && 4 <= length <= |bytes|
    requires n == bytes[length - 4] as nat + 0x100 * bytes[length - 3] as nat + 0x1_0000 * bytes[length - 2] as nat
                + 0x100_0000 * bytes[length - 1] as nat
    ensures Access(cipher, bytes, length, crc).1 == 0 <==> n < length && Crc32(bytes[..n]) == crc
    ensures Access(cipher, bytes, length, crc).1 == 0 ==> Access(cipher, bytes, length, crc).0.size == n
  {
    hide Crc32;
    var s := bytes[length - 4..length];
    assert LittleEndian(s) == n by {
      assert LittleEndian(s[3..]) == s[3];
      assert s[1..][1..] == s[2..] && s[2..][1..] == s[3..];
      assert LittleEndian(s[2..]) == s[2] as nat + 0x100 * s[3] as nat;
    }
  }

  // Content decrypted once is recognised at once when it is accessed with its stored length.
  lemma SecondAccess(c: Content, key: seq<byte>)
    requires Valid(c) && Accepts(c, key)
    ensures var d := Decrypted(c, key);
      && d.bytes[..d.size] == PlainText(c.cipher, c.bytes[..c.size], key)
      && |d.bytes| == |c.bytes|
      && Access(c.cipher, d.bytes, c.size, c.crc) == (d.(phase := COMPLETE), 0)
  {
    hide Crc32, PlainText, WellPadded, Usable, Decrypted, LittleEndian;
    DecryptedText(c, key);
  }

  // ----- A saved key -----

  // After an accepted key was saved, a fresh copy of the same stored data completes in its
  // first step with the same text, whatever provider and wizard would answer.
  lemma SavedKeyCompletes(c: Content, store: KeyStore, p: Provider, later: KeyStore, q: Provider, w: Wizard)
    requires Valid(c) && Complete(p) && Complete(q)
    requires Attempt(c, store, false, p).2 == 0
    requires p.save && p.saveWorks && store.machineId.Some?
    requires later.machineId == store.machineId && c.crc in later.saved
    requires later.saved[c.crc] == Attempt(c, store, false, p).1.saved[c.crc]
    ensures Handle(c.(phase := INITIALIZE), later, q, w)
         == (Attempt(c, store, false, p).0.(phase := COMPLETE), later, CONTINUE)
  {
    hide Crc32, PlainText, WellPadded, Usable, Verified;
    var key := p.key[..KeyLength(c.cipher)];
    BindTwice(key, store.machineId.value);
    assert LoadKey(later, c.crc, KeyLength(c.cipher)) == Some(key);
  }
}
