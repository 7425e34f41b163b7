# Lavender: a verified model

Lavender is a slideshow player. Its scripts and assets travel in a ZIP file behind the
executable, scripts can be encrypted, music is streamed through a double buffer, and on
DOS assets are kept in extended memory. This project models these engines, the Python
tools that prepare content for the player, and the small source chooser of the ARD
installer, and proves what they promise.

| module | what it models |
|---|---|
| `Bits`, `Bytes`, `Wrappers` | unsigned words with explicit widths; big- and little-endian byte strings; optional values |
| `Crc` | CRC-32 bit by bit, and the table of sixteen entries |
| `DesTables`, `Des` | DES: permutations, round function, rounds, subkeys, key expansion |
| `DesStandard` | what makes the cipher DES: the criterion of the boxes, the order of rounds and keys, the worked example |
| `Stream`, `Tool` | the player's cipher streams and the encrypting tool |
| `Enc`, `EncObjects` | decryption in place, the state machine and its runs; the classes that carry them out |
| `Cache` | the extended-memory cache over an external allocator |
| `SoundBuffer`, `Midi` | the double-buffered track and the reader of its events |
| `Base24`, `ProductKey` | product keys and short codes, printed by Python and read by C |
| `Remote`, `RemoteClient`, `Unlock` | the remote unlock exchange; the last module joins it to the encrypted content |
| `Runner`, `Loader` | the script runner against a recursive interpreter; script text as entries |
| `Zip` | the archive reader against a writer of bundles |
| `Bitmap` | bitmap chunks and the four planes of an EGA screen |
| `Ard` | the choice of installation sources |

Where the original updates state in place, a class or a method with loops does so too and
is proved equal to a function on values; the properties are lemmas about those functions.
Words are natural numbers with explicit bounds: wrap-around and truncation are written out
where the original relies on them. What the outside world answers (the allocator, files,
keys and clicks, key providers, the wizard, the clock) is arbitrary input.

## Model

| member | source | states |
|---|---|---|
| Crc.TableEntry | player/src/pal/_zip/zip.c:563-567 | each of the sixteen table entries is its index shifted four bits through the reflected polynomial 0xEDB88320 |
| Crc.ByteStepIsEightShifts | player/src/pal/_zip/zip.c:569-580 | two table lookups do exactly what eight one-bit shifts of the reflected CRC do, for every register and byte |
| Crc.KnownChecksums | player/src/pal/_zip/zip.c:563-593 | the checksum of nothing is 0 and that of a single zero byte 0xD202EF8D |
| Crc.CalculateCrc | player/src/pal/_zip/zip.c:582-585 | the direct loop returns the bit-by-bit CRC-32 of the bytes |
| Stream.Stream.CalculateCrc | player/src/pal/_zip/zip.c:587-593 | the loop over an accessor returns the CRC-32 of the bytes the stream stands for, whatever its memo held before |
| Des.PermuteBit | player/src/enc/cipher/des.c:19-33 | bit k of a permuted word is the bit its table names |
| Des.PermuteWord | player/src/enc/cipher/des.c:19-33 | the loop builds that permutation for every table |
| Des.FinalUndoesInitial | player/src/enc/cipher/des.h:8-30 | FP undoes IP on every 64-bit word |
| Des.InitialUndoesFinal | player/src/enc/cipher/des.h:8-30 | IP undoes FP on every 64-bit word |
| Des.RoundFunction | player/src/enc/cipher/des.c:84-102 | the sliding 48-bit window applies the eight S-boxes to the eight sextets of E(R) xor K and permutes the result |
| Des.RoundsUndone | player/src/enc/cipher/des.c:104-131 | rounds run with the subkeys reversed and the halves swapped give back both halves, whatever the round function computes |
| Des.FeistelUndone | player/src/enc/cipher/des.c:104-131 | the whole block transformation is undone by the reversed subkeys, for any round function into 32 bits |
| Des.CryptUndone | player/src/enc/cipher/des.c:104-131 | each direction undoes the other for every block and every subkey array |
| Des.CryptBlock | player/src/enc/cipher/des.c:104-131 | the loop over sixteen rounds computes that transformation, in either direction |
| Des.HalvesReturn | player/src/enc/cipher/des.h:130-132 | after sixteen rounds both key halves are back where they started |
| Des.GenerateSubkeys | player/src/enc/cipher/des.c:53-74 | the loop produces the sixteen subkeys, each PC2 of the halves rotated by the running total |
| DesStandard.SubstitutesDiffer | player/src/enc/cipher/des.c:76-82 | for all eight boxes: two sextets whose first two bits are opposite and whose last two bits agree have different outputs |
| DesStandard.ExampleRound | player/src/enc/cipher/des.c:84-102 | the first round of the worked example: F(0x1B02EFFC7072, 0xF0AAF0AA) is 0x234AA9BB |
| DesStandard.ExampleFirstKey | player/src/enc/cipher/des.c:53-74 | the first subkey of 0x133457799BBCDFF1 is 0x1B02EFFC7072 |
| DesStandard.ExampleSecondKey | player/src/enc/cipher/des.c:53-74 | its second subkey is 0x79AED9DBC9E5 |
| DesStandard.ExampleSchedule | player/src/enc/cipher/des.c:175-180 | a key of eight bytes is read with the most significant byte first |
| DesStandard.RotationAt | player/src/enc/cipher/des.h:130-132 | key halves are rotated by two places but in rounds 1, 2, 9 and 16, where it is one |
| DesStandard.InitialDigit | player/src/enc/cipher/des.h:8-18 | where each digit of the initially permuted block comes from, in arithmetic |
| DesStandard.BlockFromHalves | player/src/enc/cipher/des.c:104-131 | for every key array and block: the seventeen pairs of halves given by L = R and R = L xor F(K, R), with the keys from the first to the last when enciphering and from the last to the first when deciphering, make the block, the last right half in front |
| DesStandard.TripleDes | player/src/enc/cipher/des.c:133-145 | with a key of sixteen bytes the player deciphers what was enciphered with the first half, deciphered with the second and enciphered with the first |
| Des.ExpandedKey | player/src/enc/cipher/des.c:312-325 | every byte of an expanded key has odd parity and the bytes determine the 56 bits |
| Des.Expand56 | player/src/enc/cipher/des.c:312-325 | the loop fills the eight bytes of the expansion |
| Stream.BlockRoundTrip | player/src/enc/cipher/des.c:133-145 | DES, and two-key EDE TDES, decrypt what the same key encrypts |
| Stream.Stream.GetPlain | player/src/enc/cipher/des.c:133-145 | the plain block is the deciphered block xor the one before |
| Stream.Stream.Prepare | player/src/enc/enc.c:41-79 | a stream is ready exactly when key and data lengths suit the cipher |
| Stream.Stream.At | player/src/enc/cipher/des.c:197-213 | byte i of the plain text through the one-block memo, under any order of calls |
| Stream.Stream.Verify | player/src/enc/cipher/des.c:262-289 | accepts exactly well-padded text, or XOR text, whose CRC-32 matches |
| Stream.VerifiedExactly | player/src/enc/cipher/des.c:262-289 | block content verifies if and only if its last plain byte is at most 8 and what is left without so many bytes has the CRC; XOR content if and only if all of it has |
| Stream.Stream.DecryptBlockAt | player/src/enc/cipher/des.c:229-243 | one turn of the loop writes a plain block over ciphertext already used and keeps the rest for the next turn |
| Stream.Stream.BlockDecrypt | player/src/enc/cipher/des.c:215-260 | decrypting into the very buffer that is read leaves the plain text in front of the untouched rest |
| Stream.Stream.XorDecrypt | player/src/enc/cipher/xor.c:12-22 | XOR decryption in place leaves the plain text |
| Stream.Stream.Decrypt | player/src/enc/enc.c:101-105 | either cipher in place: the text, then the old bytes behind it, and its length recorded |
| Tool.ChainRoundTrip | tools/lavender/cipher/des.py:33-41 | CBC chaining is undone by the player for every block cipher, previous block and text |
| Tool.EncryptedText | tools/lavender/cipher/des.py:33-41 | data of any length, padded, chained and prefixed with the initial vector, decrypts to itself in the player |
| Tool.XoredText | tools/lavender/cipher/xor.py:5-13 | data XORed by the tool is recovered by the player |
| Enc.BindTwice | player/src/enc/enc.c:335-386 | binding a key to the machine is undone by binding it again |
| Enc.BoundToMachine | player/src/enc/enc.c:335-386 | a key saved on one machine is the key on another one if and only if their identifiers agree where it was bound |
| Enc.DecryptedText | player/src/enc/enc.c:269-275 | the content starts with the verified text and its CRC matches, although the size word was written into the tail, which never reaches the text |
| Enc.AttemptOutcome | player/src/enc/enc.c:232-278 | a failed attempt changes neither content nor key store; a successful one leaves verified content |
| Enc.CompletionIsVerified | player/src/enc/enc.c:170-230 | completion reached from INITIALIZE or VERIFY means verified content; an error leaves the content as it was |
| Enc.StepKeepsInvariant | player/src/enc/enc.c:170-230 | each step, and each page handing in user input, keeps the invariant of runs |
| Enc.EveryRun | player/src/enc/enc.c:170-230 | over whole runs: untouched until a key is accepted, authentic from then on; COMPLETE only then, or after the wizard was left forwards from its last page without an accepted key |
| Enc.EveryRunFromAccess | player/src/enc/enc.c:297-333 | the same from a first access; the content has the CRC asked for if and only if a key was accepted or the stored bytes had it from the start |
| Enc.WizardAlone | player/src/enc/enc.c:195-217 | without a saved key, a wizard that is left forwards at once completes a run whose content is not authentic: the condition of the runs cannot be dropped |
| Enc.ProviderAsked | player/src/enc/enc.c:184-192 | without a good saved key, a provider that fails ends the run with its own status and changes nothing, one that needs the user leads to the phase in which pages may hand in a key, and any other one has its own key tried next |
| Enc.ProviderKeyCompletes | player/src/enc/enc.c:175-221 | a provider with a key of its own: two steps complete the content, its plain text in front, and save the key if and only if it was to be saved and could be; or the second step fails with the provider's status, -13 for a wrong key or -22 for data that are no whole blocks, and changes nothing |
| Enc.SubmittedKeyCompletes | player/src/enc/enc.c:184-217 | a provider that needs the user: a page that hands in the right key and a wizard left forwards complete the content in the same way |
| Enc.WizardAnswers | player/src/enc/enc.c:195-217 | the wizard changes neither content nor keys; only a user who gives up ends the run, with -13, and only the last page left forwards completes the content |
| Enc.AccessIsAuthentic | player/src/enc/enc.c:297-333 | content is recognised as decrypted exactly when it is complete, and then it is authentic |
| Enc.AccessRecognises | player/src/enc/enc.c:314-329 | block content is recognised if and only if its last four bytes are, low byte first, the length of a shorter text in front that has the CRC |
| Enc.SecondAccess | player/src/enc/enc.c:314-329 | after a decryption an access with the stored length succeeds at once with the plain size |
| Enc.SavedKeyCompletes | player/src/enc/enc.c:175-193 | a key saved by a verified decryption completes a later run on the same ciphertext in one step, without the provider |
| EncObjects.Vault.Load | player/src/enc/enc.c:335-359 | loading gives the saved key unbound, or nothing |
| EncObjects.Vault.Save | player/src/enc/enc.c:361-386 | saving binds the key and changes no other entry |
| EncObjects.EncContext.DecryptOver | player/src/enc/enc.c:269-275 | decryption over its own ciphertext with the size recorded gives the new content |
| EncObjects.EncContext.DecryptContent | player/src/enc/enc.c:232-278 | carries out an attempt on buffer, size and store |
| EncObjects.EncContext.AccessContent | player/src/enc/enc.c:297-333 | carries out an access without touching the bytes |
| EncObjects.EncContext.HandleStep | player/src/enc/enc.c:170-230 | carries out one step of the state machine |
| Cache.FindMeans | player/src/pal/dos/p-cache.c:47-70 | a lookup finds a live slot of the part, and finds none exactly when there is none |
| Cache.AgeingKeeps | player/src/pal/dos/p-cache.c:47-70 | the counter of a released block stays the saturating number of requests since |
| Cache.EvictionKeeps | player/src/pal/dos/p-cache.c:112-170 | dropping the victim keeps the invariant and frees no handle that is held |
| Cache.VictimIsOldest | player/src/pal/dos/p-cache.c:112-170 | of the blocks that nobody holds and that are large enough, the one evicted was idle for the most requests, as far as they are counted; of those it has the fewest kilobytes; and of those it is the first |
| Cache.LockingKeeps | player/src/pal/dos/p-cache.c:87-100 | pinning keeps lock counters equal to the clients of each handle |
| Cache.UnlockingKeeps | player/src/pal/dos/p-cache.c:102-110 | unpinning keeps lock counters equal to the clients of each handle; after the last one ageing starts from zero |
| Cache.RememberingKeeps | player/src/pal/dos/p-cache.c:172-196 | a remembered block takes a free slot, distinct from every other |
| Cache.LoadingKeeps | player/src/pal/dos/p-cache.c:253-288 | a block that holds its part, as far as it was stored, completes the invariant |
| Cache.FreeingKeeps | player/src/pal/dos/p-cache.c:220-229 | giving back a block nobody remembers keeps the invariant and all held handles |
| Cache.FileCache.RetrieveCache | player/src/pal/dos/p-cache.c:47-70 | one pass returns the first live slot of the part and ages the unpinned slots |
| Cache.FileCache.FindCache | player/src/pal/dos/p-cache.c:73-85 | the first slot of a handle |
| Cache.FileCache.LockCache | player/src/pal/dos/p-cache.c:87-100 | pins the slot of a handle, its age forgotten, and changes nothing else |
| Cache.FileCache.UnlockCache | player/src/pal/dos/p-cache.c:102-110 | releases one client of a handle and keeps every handle; a handle nobody holds is let alone |
| Cache.FileCache.Evict | player/src/pal/dos/p-cache.c:112-170 | frees the least, by counter and rounded size, of the unpinned slots large enough, and fails exactly when there is none |
| Cache.FileCache.RememberCache | player/src/pal/dos/p-cache.c:172-196 | enters a block at the first free slot, idle since no request; evicts one if the table is full; fails only if all sixteen slots are pinned |
| Cache.FileCache.AllocateCache | player/src/pal/dos/p-cache.c:199-218 | allocates whole kilobytes; asks the driver once, or twice with one eviction between; fails when it was refused and nothing could be evicted, or was refused twice |
| Cache.FileCache.LoadData | player/src/pal/dos/p-cache.c:253-288 | the copy loop over an unaligned head, whole sectors and a tail stores the part of the file up to the first read that falls short, and without the tail if the driver refuses it; no more than one byte behind what was stored is changed; the status is zero exactly if no read failed and the first one was complete or errno was zero before |
| Cache.StoredWhole | player/src/pal/dos/p-cache.c:253-288 | all of a part is stored if and only if the file has all of it and the rest of the sector it begins in, and it does not both fill its kilobytes and begin at an odd place, where the rounded tail does not fit the block |
| Cache.OddKilobyte | player/src/pal/dos/p-cache.c:279-285 | of a kilobyte that begins at place 1 of a file, the last byte is not stored |
| Cache.Xms.Store | player/src/pal/dos/d-xm.c:126-132 | a move is rounded up to words, stores what is behind an odd number of bytes as well, and is refused if it does not end inside of the block or is too long to be rounded |
| Cache.Xms.Load | player/src/pal/dos/d-xm.c:118-124 | the same rounding and the same refusal when reading |
| Cache.FileCache.Acquire | player/src/pal/dos/p-cache.c:199-218 | a block of its own for a part, remembered and pinned; 0 only if none could be had, and then what the driver was asked and what was evicted |
| Cache.FileCache.Attach | player/src/pal/dos/p-cache.c:290-328 | a part in the cache is found there and pinned once more without asking the driver; any other gets a block of its own; every idle block is one request older |
| Cache.FileCache.Fill | player/src/pal/dos/p-cache.c:253-288 | the block holds its part as far as it was stored, or it was given back and a slot stays behind: exactly if a read failed, or the first one fell short while errno was set |
| Cache.FileCache.PalCache | player/src/pal/dos/p-cache.c:290-328 | the handle is not zero exactly if a block was found or could be had, no read failed, and the part was not in the cache, begins with a whole sector, or errno was zero; a new block holds what the driver left in it, overwritten as far as the file was stored; a part in the cache is left as it is but for a byte that was never stored; the count of every idle block advances by one; the cache is in order afterwards if and only if no block was had in vain |
| Cache.Reloaded | player/src/pal/dos/p-cache.c:321-325 | loading a part that is in the cache once more changes nothing but a byte behind what was stored |
| Cache.CacheShortFile | player/src/pal/dos/p-cache.c:253-328 | caching the first half of a file of 100 bytes yields a live handle to a block in which nothing was stored, although the file has all of it |
| Cache.FileCache.PalDiscard | player/src/pal/dos/p-cache.c:330-338 | gives one hold back, and nothing for the null handle or one nobody holds |
| Cache.FileCache.PalRead | player/src/pal/dos/p-cache.c:340-344 | a held handle reads as the file does, as far as the part was stored; a read is refused exactly if it has more than 0x7FFE bytes, or an odd number of them up to the end of the block |
| Cache.ServeOne | player/src/pal/dos/p-cache.c:290-344 | one request of the clients is answered as the file would, as far as the part was stored; a part is turned away only if the driver refused or sixteen blocks are held; ages and holds stay what the requests say; only a failed read, or a part that does not begin with a whole sector, ends the run |
| Cache.Serve | player/src/pal/dos/p-cache.c:290-344 | over every run, of any length, of cache, read and discard requests: reads yield the bytes of the file, as far as they were stored, and are refused exactly if they have more than 0x7FFE bytes, or an odd number of them up to the end of the block; unless the driver refused memory, a part is turned away only while sixteen different blocks are held; the counter of every block nobody holds is the saturating number of parts requested since it was released; a run ends early only where a read failed or a part does not begin with a whole sector |
| Cache.AgesAreKnown | player/src/pal/dos/p-cache.c:47-70 | in every state of a run, the age of a block nobody holds is the number of parts requested since the discard that released it |
| Cache.CacheServed | player/src/pal/dos/p-cache.c:290-328 | a request for a part keeps holds, parts and ages what the run says they are |
| Cache.OtherServed | player/src/pal/dos/p-cache.c:330-344 | reads and discards keep holds, parts and ages what the run says they are; discarding the last hold starts the count |
| Cache.LastRelease | player/src/pal/dos/p-cache.c:102-110 | the request that released a handle last, and none after it did |
| Cache.AllPinnedHeld | player/src/pal/dos/p-cache.c:172-196 | a table of pinned slots means that clients hold sixteen different handles |
| Cache.HeldCount | player/src/pal/dos/p-cache.c:87-110 | a handle is held at most as often as its part is open |
| SoundBuffer.ReadKeeps | player/src/snd/buf.c:26-59 | a byte read without underrun keeps the packets of the track in place |
| SoundBuffer.PutKeeps | player/src/snd/buf.c:81-87 | whatever is fed goes to the packet not being read |
| SoundBuffer.PutHolds | player/src/snd/seq.c:217-253 | a packet fed in full is the next one of the track |
| SoundBuffer.FeedKeeps | player/src/snd/seq.c:217-253 | feeding, successful or not, keeps the invariant |
| SoundBuffer.EveryStateHolds | player/src/snd/seq.c:217-253 | the invariant in every interleaving of reading and feeding before the first underrun |
| SoundBuffer.EveryByteIsTrack | player/src/snd/buf.c:26-79 | in every interleaving, until an underrun is reported, the byte read or peeked is that byte of the track |
| SoundBuffer.FlagsMean | player/src/snd/buf.c:4-24 | what each flag says about the events so far |
| SoundBuffer.UnderrunExactly | player/src/snd/buf.c:4-24 | a read reports an underrun if and only if it enters a packet with no feeding since the one before and the end not seen |
| SoundBuffer.PacedExactly | player/src/snd/buf.c:4-24 | no underrun is ever reported if and only if feeding succeeded between any two packet crossings, or the end was seen |
| SoundBuffer.SndBuffer.constructor | player/src/snd/seq.c:120-131 | the first fill starts the invariant |
| SoundBuffer.SndBuffer.Request | player/src/snd/buf.c:4-24 | sets the flags as the request says |
| SoundBuffer.SndBuffer.ReadBytes | player/src/snd/buf.c:26-59 | the loop delivers the bytes of the pure reader and stops with it |
| SoundBuffer.SndBuffer.PeekByte | player/src/snd/buf.c:74-79 | the byte at the position, without moving |
| SoundBuffer.SndBuffer.FeedNext | player/src/snd/seq.c:210-253 | the feeder's new state, end of track and failed reads included |
| Midi.ReadIsTrack | player/src/snd/buf.c:26-59 | a whole read delivers consecutive bytes of the track |
| Midi.SameQuantity | player/src/snd/midi.c:157-188 | no quantity begins with another one |
| Midi.RestoredVlq | player/src/snd/midi.c:20-32 | a quantity that was read is restored byte by byte, canonical or not |
| Midi.RestoreVlq | player/src/snd/midi.c:20-32 | the loop writes exactly those bytes and no others |
| Midi.QuantityValue | player/src/snd/midi.c:157-188 | the value of a quantity of one to four bytes: seven bits of each, the first one uppermost |
| Midi.MessageLengths | player/src/snd/midi.c:65-148 | program changes and channel pressure (0xC0 to 0xDF) carry one byte of data, the other messages of a channel two; which system messages carry two, one or none; and which status bytes are refused |
| Midi.MidiReader.ReadVlq | player/src/snd/midi.c:157-188 | the value of the one to four bytes consumed; five bytes consumed and no value if none ends |
| Midi.MidiReader.ReadMetaHead | player/src/snd/midi.c:123-135 | type and length of a meta event, verbatim in the message; without an underrun, refused exactly if the length does not end within four bytes or the event exceeds the buffer |
| Midi.MidiReader.ReadMeta | player/src/snd/midi.c:123-148 | the message of a meta event is the track from its type byte on; whatever meta event the track holds is read |
| Midi.MidiReader.ReadStatus | player/src/snd/midi.c:46-60 | a status byte is consumed, or the running one stays in force; it never fails without an underrun |
| Midi.MidiReader.ReadMessage | player/src/snd/midi.c:62-150 | the message is verbatim the track behind the status byte and has the form its kind asks for; whatever message of that kind the track holds is read |
| Midi.MidiReader.ReadHead | player/src/snd/midi.c:34-60 | the delta and the status byte of an event, and the number of bytes they take; never fails without an underrun |
| Midi.HeadOfMeta | player/src/snd/midi.c:123-135 | the head read is that of any meta event the track holds, and such an event is not refused |
| Midi.EventBegins | player/src/snd/midi.c:34-60 | the delta and status read are those of any event the track holds |
| Midi.MidiReader.ReadEvent | player/src/snd/midi.c:34-155 | delta, status and message are exactly the bytes the position moved over; and whatever event the track holds, of at most 1024 bytes, is read as it is when no underrun occurs |
| Base24.FittingDigits | tools/lavender/key/pkey25.py:22-28 | a number below 24^n prints as exactly n digits |
| Base24.LettersAscend | player/src/enc/keyfmt/pkey25.c:16 | the digits are in the order of their characters |
| Base24.FixedValue | player/src/enc/keyfmt/pkey25.c:40-58 | the digits printed have the number as their value |
| Base24.Convert | player/src/enc/keyfmt/pkey25.c:40-58 | the loop returns that value without leaving 64 bits, and 0 for an unknown character |
| Base24.RemoveHyphens | player/src/enc/keyfmt/pkey25.c:25-38 | collects the twenty-five characters that are no hyphens |
| Base24.ValidateFormat | player/src/enc/keyfmt/pkey25.c:131-151 | accepts exactly five groups of five letters with hyphens between |
| Base24.DecodeRaw | player/src/enc/keyfmt/pkey25.c:60-78 | both numbers of a key, within 64 bits |
| Base24.FormatReads | tools/lavender/key/pkey25.py:31-37 | what is formatted passes the player's check and is read back |
| ProductKey.PartsUnmasked | tools/lavender/key/pkey25.py:62-78 | unmasking the two parts gives both key halves, for each of the four masks |
| ProductKey.MaskDigits | player/src/enc/keyfmt/pkey25.c:18-23 | which digits of a key each of the four masks flips: none, those of even weight, the others, all |
| ProductKey.Decode | player/src/enc/keyfmt/pkey25.c:103-129 | the decoder computes that unmasking |
| ProductKey.PrintedKeyDecodes | tools/lavender/key/pkey25.py:47-78 | every 112-bit key printed with every mask has 29 characters, passes the check and decodes to itself |
| ProductKey.SameKey | tools/lavender/cipher/des.py:16-21 | tool and player derive the same DES key bytes from fourteen key bytes |
| ProductKey.RotatedBack | tools/lavender/key/le.py:25-30 | rotating 24 bits left and right again gives the number back |
| ProductKey.TurnedDigits | tools/lavender/key/le.py:40-55 | where each digit of the key is in the two parts of a code: turned by 3, 7, 13 or 19 places |
| ProductKey.LeRoundTrip | player/src/enc/keyfmt/le.c:29-59 | every code issued for a 48-bit key decodes to it, both parts within 32 bits |
| ProductKey.TwelveCodes | tools/lavender/key/le.py:40-72 | exactly which of the sixteen codes are issued; at least twelve for every key |
| Remote.AccessRoundTrip | player/src/enc/provider/remote/remote.c:90-141 | the numbers of an access code are read as the identifiers they were made from |
| Remote.AccessCodeReads | tools/lavender/remote/access_code.py:5-18 | every printed access code passes the check and carries both identifiers |
| Remote.CodecsAgree | tools/lavender/remote/access_code.py:21-35 | player and tool read the same identifiers from two numbers, or both refuse them, if and only if the parity is wrong or the first number is below 2^59 and the second below 2^55, or its overflowing digit is one the first has too |
| RemoteClient.DecodersAgree | player/src/enc/provider/remote/remote.c:102-139 | of every text in the form of an access code, player and tool read the same identifiers, or both refuse it, if and only if the parity is wrong or its numbers are in the range of printed codes, but for a digit that makes no difference |
| RemoteClient.DecodersDiffer | player/src/enc/provider/remote/remote.c:102-139 | a well-formed text with the right parity of which player and tool read different identifiers |
| RemoteClient.PrintedInRange | tools/lavender/remote/access_code.py:5-18 | the numbers of every printed access code are in that range |
| Remote.PrefixedBack | tools/lavender/remote/request.py:13-21 | the chain of prefix xors is undone |
| Remote.RequestReads | tools/lavender/remote/request.py:1-21 | a request is read as the content, user and stamp it was made from |
| Remote.HashIsMask | tools/lavender/remote/response.py:1-5 | the mask as one number is the mask byte by byte |
| Remote.ServedExactly | tools/lavender/remote/service.py:23-37 | for every stamp, content, user, clock and directory: a request is answered if and only if it is at most 120 seconds ahead and 900 behind and the user has access; otherwise it is from the future, stale or denied, in this order |
| Remote.ResponseUnmasks | tools/lavender/remote/response.py:8-14 | unmasking a response byte by byte yields the big-endian key |
| Remote.ComplementDigit | tools/lavender/math.py:1-7 | the complement is the one digit that makes the sum of the digits a multiple of ten |
| Remote.DecimalComplement | tools/lavender/math.py:1-7 | the loop returns the digit that makes the digit sum a multiple of ten |
| Remote.GroupAccepted | tools/lavender/remote/decimal_code.py:4-7 | a printed group has complement 0 and holds its word |
| Remote.OneDigitChanged | player/src/enc/provider/remote/ccode.c:48-68 | changing any one digit of an accepted group makes it rejected |
| Remote.DecimalCodeReads | tools/lavender/remote/decimal_code.py:4-15 | every even byte string printed as a decimal code is well formed and read back |
| Remote.UnlockChain | tools/lavender/remote/service.py:23-37 | access code, request, service and confirmation chain up to the key, for every content, user, key and stamp in the window |
| RemoteClient.ParityOf | player/src/enc/provider/remote/remote.c:15-31 | the loop computes the parity of a number |
| RemoteClient.Client.EnterAccessCode | player/src/enc/provider/remote/remote.c:76-146 | accepts a code exactly for the content asked for, writes its user into the request, and else leaves the request alone |
| RemoteClient.Client.Stamp | player/src/enc/provider/remote/remote.c:46-51 | puts the time into the request and keeps the rest |
| RemoteClient.Client.EncodeRequest | player/src/enc/provider/remote/remote.c:53-63 | the loop computes the prefix xors |
| RemoteClient.Client.RequestCode | player/src/enc/provider/remote/rcode.c:41-70 | the text shown is the decimal code the tool reads |
| RemoteClient.Client.CheckConfirmation | player/src/enc/provider/remote/ccode.c:16-47 | accepts exactly seven groups of six digits with hyphens |
| RemoteClient.Client.EnterConfirmation | player/src/enc/provider/remote/ccode.c:48-82 | unmasks the response, or names the first group whose check digit is wrong |
| RemoteClient.Client.Transform | player/src/enc/provider/remote/remote.c:292-298 | the cipher key made of a response |
| Unlock.PublishedDecrypts | tools/lavender/cipher/des.py:33-41 | whatever an author publishes is accepted with the author's key and is the author's text |
| Unlock.AttemptDelivers | player/src/enc/enc.c:232-278 | an attempt with the key of the author succeeds and leaves the text of the author in front |
| Unlock.AuthoredDelivers | player/src/enc/enc.c:232-278 | for each of the three ciphers, an attempt with the key of the author, the first 6, 8 or 16 bytes a provider hands in, succeeds and leaves the text of the author in front |
| Unlock.CodeEntered | player/src/enc/provider/remote/remote.c:76-146 | the access code of any user is accepted for its content, and for no other one, and carries the user |
| Unlock.ChainReads | tools/lavender/remote/service.py:23-37 | the service reads the request the player sent, and its answer unmasks to the key |
| Unlock.Exchange | player/src/enc/provider/remote/ccode.c:48-82 | a player that enters its access code, shows a request code and is told the confirmation code ends up with the key of the author as its response, and with the cipher key made of it |
| Unlock.RemoteUnlock | player/src/enc/provider/remote/remote.c:258-316 | from the text of the author to the buffer of the player: after the exchange an attempt succeeds and leaves exactly that text, whether or not the key is to be saved |
| Runner.GotoFinds | player/src/sld/runner.c:69-99 | a jump lands behind the first such label, or at the end, or before a line that fails to load |
| Runner.GotoBoundary | player/src/sld/runner.c:69-99 | a jump lands on an entry boundary, whether the label exists or not |
| Runner.BoundariesApart | player/src/sld/runner.c:199-226 | no entry boundary lies inside another entry |
| Runner.StepKeeps | player/src/sld/runner.c:124-283 | every offset stays an entry boundary, and no script below the top is ever in the middle of an entry |
| Runner.EnterSimulates | player/src/sld/call.c:190-197 | entering a script executes all of it in place of its call |
| Runner.StepSimulates | player/src/sld/runner.c:124-283 | each step does what the recursive interpreter does next, whatever the future brings |
| Runner.RunRefines | player/src/sld/runner.c:124-283 | from any point of a run on, what is executed is what the interpreter goes through |
| Runner.EveryRunIsTheScript | player/src/main.c:29-34 | every run executes the same entries as the recursive interpreter, and ends with the same accumulator when it ends |
| Runner.EveryOutcome | player/src/sld/runner.c:157-195 | in every run each entry recorded was ended by one of the inputs, on the machine the inputs before it led to, with this accumulator: for a wait the keystroke, the tag if it was clicked, 10000 and the tag if the pointer was only over it, or 10000 if a hover was over; the answer for a query; 0 for a script entered and 65535 for one denied; for any other entry the one before |
| Runner.WaitEndsExactly | player/src/sld/runner.c:157-195 | a wait is ended by a key that does not zoom, or, without a key, by an area under the pointer or the end of a hover; any other input changes nothing |
| Runner.LoadDelays | player/src/sld/runner.c:199-240 | a loaded entry waits if it has a delay, a blank one if the entry before it had one |
| Runner.DelayHolds | player/src/sld/runner.c:242-251 | nothing happens until the delay is over, and then the entry is executed |
| Runner.CallBegins | player/src/sld/call.c:39-154 | a call fails if its script is missing or cannot be loaded; what is not stored plainly, nor found decrypted already, is deciphered before it is entered |
| Runner.CallDecodes | player/src/sld/call.c:156-187 | deciphering goes on until the script is there; a denied one ends its call with 65535, a broken one the run |
| Runner.NothingDeciphered | player/src/sld/call.c:39-197 | in a run in which no content is found decrypted or is deciphered, no encrypted script is ever entered |
| Runner.InterpretedOnBoundaries | player/src/sld/runner.c:199-226 | every entry the interpreter executes is found by loading one after the other |
| Runner.EveryRunOnBoundaries | player/src/sld/runner.c:199-226 | every entry a run of the machine executes lies on a boundary, through all its calls |
| Runner.RunLeavesBottom | player/src/sld/context.c:46-60 | scripts below a called one are not touched while it runs |
| Runner.CallReturns | player/src/sld/call.c:190-197 | when a called script has ended, its caller is on top again exactly as it was left, at the entry after the call |
| Runner.NothingAfterQuit | player/src/sld/runner.c:130-134 | once quitting, no further entry is executed |
| Runner.NothingAfterClosing | player/src/sld/runner.c:130-156 | once the program is to close no further entry is executed, and the wish to quit reaches the first script |
| Runner.QuitUnwinds | player/src/sld/runner.c:145-155 | the wish to quit reaches the first script in as many steps as there are scripts above it |
| Runner.Handler.GotoLabel | player/src/sld/runner.c:69-99 | the search loop sets the offset the jump means |
| Runner.Handler.Enter | player/src/sld/context.c:46-51 | pushes a context |
| Runner.Handler.Exit | player/src/sld/context.c:53-60 | pops the top context and returns it |
| Runner.Handler.HandleWait | player/src/sld/runner.c:157-195 | ends a wait with the key, the clicked or hovered area, or a hover that is over; a key that zooms ends nothing |
| Runner.Handler.HandleLoad | player/src/sld/runner.c:199-239 | loads the next entry or stops at the end |
| Runner.Handler.HandleCall | player/src/sld/call.c:39-216 | the three stages of a call |
| Runner.Handler.Execute | player/src/sld/runner.c:12-65 | executes the loaded entry |
| Runner.Handler.Handle | player/src/sld/runner.c:124-283 | one call of the handler is one step of the machine |
| Runner.Handler.Play | player/src/main.c:29-34 | the main loop is a run of the machine |
| Loader.ReadU | player/src/sld/loader.c:5-34 | the cursor loops read the digits into a 16-bit word, and refuse a number not followed by a space |
| Loader.ReadContent | player/src/sld/loader.c:36-62 | the text up to the end of the line, of at most 256 characters |
| Loader.ReadPosition | player/src/sld/loader.c:64-106 | a row and a column or an alignment |
| Loader.ReadScriptName | player/src/sld/call.c:218-240 | the characters of the name of a called script, at most 30 |
| Loader.ReadShape | player/src/sld/shape.c:65-99 | a place, a size and a colour, by letter or name; a size that is missing makes the cursor step back, as in the original |
| Loader.ReadArea | player/src/sld/actarea.c:89-108 | a place, a size and a tag |
| Loader.ReadCall | player/src/sld/call.c:218-263 | a name and, for encrypted content, method, CRC, parameter and at most 40 characters of data, each with its value |
| Loader.NameRunsOn | player/src/sld/call.c:218-249 | the name of a script is read as it was written if and only if it has fewer than 30 characters or the low byte of the method is zero; otherwise it runs on into the fields behind |
| Loader.ReadTagged | player/src/sld/loader.c:143-196 | the entry its tag introduces, or a refusal, with the limits on the lengths of texts, names and data |
| Loader.ReadEnd | player/src/sld/loader.c:203-215 | the rest of the line and all line ends behind it belong to the entry |
| Loader.ReadEntry | player/src/sld/loader.c:108-215 | one entry of a script |
| Loader.ReadsNumber | player/src/sld/loader.c:5-34 | a printed number is read back, to its end |
| Loader.ReadsPosition | player/src/sld/loader.c:64-106 | a printed position is read back |
| Loader.ReadsShape | player/src/sld/shape.c:65-99 | a printed shape is read back: place, size and colour |
| Loader.ReadsArea | player/src/sld/actarea.c:89-108 | a printed area is read back: place, size and tag |
| Loader.ReadsDecode | player/src/sld/call.c:218-263 | a printed call of encrypted content is read back: name, method, CRC, parameter and data |
| Loader.ReadsPrintedHex | player/src/sld/call.c:252 | a 32-bit number printed in hexadecimal, in upper or lower case and with any leading zeros, is read back |
| Loader.ReadsMarkedHex | player/src/sld/call.c:252 | the same behind a sign and a prefix 0x; a minus turns the number round in 32 bits |
| Loader.ReadsBareCall | player/src/sld/call.c:234-263 | a printed call of encrypted content without data is accepted if and only if the rest of the next line that is not empty has at most 40 characters |
| Loader.ReadsCommand | player/src/sld/loader.c:143-196 | what was printed behind a tag, for every kind of entry, is read as it was meant |
| Loader.ReadsLine | player/src/sld/loader.c:108-215 | a printed line, wherever it stands in a text, loads as what it says and to its very end; a call of encrypted content without data only if the next line is short enough for data |
| Loader.LoadsLine | player/src/sld/loader.c:108-215 | a line of a printed script loads at its start, and ends at the start of the next, if and only if it is no call of encrypted content without data before a line of more than 40 characters or at the end |
| Loader.BoundaryIsStart | player/src/sld/runner.c:199-226 | the entry boundaries of a printed script are line starts |
| Loader.StartIsBoundary | player/src/sld/runner.c:199-226 | the start of a line of a printed script is an entry boundary if and only if all lines before it load |
| Loader.ExecutesLines | player/src/sld/runner.c:124-283 | however a run over printed scripts goes, everything it executes is a line at its start |
| Zip.HeaderReads | player/src/pal/_zip/zip.c:209-250 | the reader sees name, length and offset of a written directory header, wherever it lies |
| Zip.EndReads | player/src/pal/_zip/zip.c:150-171 | the reader sees size and place of the directory in a written end record |
| Zip.LocalFields | player/src/pal/_zip/zip.c:318-343 | the reader sees the fields of a written local header |
| Zip.OpensBundle | player/src/pal/_zip/zip.c:118-199 | behind any executable the directory is found, and the place its offsets are counted from |
| Zip.FindsFirst | player/src/pal/_zip/zip.c:260-290 | a search yields the first entry of the name, and nothing exactly when no entry has it |
| Zip.EnumeratesEach | player/src/pal/_zip/zip.c:209-250 | an enumeration shows every entry once, in order |
| Zip.LoadsAt | player/src/pal/_zip/zip.c:292-385 | the data of an entry is read from behind its local header and passes the CRC |
| Zip.LoadsFirst | player/src/pal/_zip/zip.c:346-385 | opened, searched and loaded, a bundle yields the data of the first entry of a name |
| Zip.Archive.SeekRead | player/src/pal/_zip/zip.c:25-41 | reads what is inside the file; a failure closes it for good |
| Zip.Archive.Open | player/src/pal/_zip/zip.c:118-199 | opens exactly the files with an end record and a small directory, and refuses a second archive |
| Zip.Archive.EnumFiles | player/src/pal/_zip/zip.c:209-250 | walks the headers until the visitor stops it, the end record or an error |
| Zip.Archive.Search | player/src/pal/_zip/zip.c:260-290 | the offset of the first match |
| Zip.Archive.GetData | player/src/pal/_zip/zip.c:292-344 | where the data of a stored entry lies, its size and CRC |
| Zip.Archive.LoadData | player/src/pal/_zip/zip.c:346-385 | the data when its CRC matches, an error when it does not |
| Zip.Loaded | player/src/pal/_zip/zip.c:375-382 | loaded data always has the CRC of its local header |
| Zip.OpensExactly | player/src/pal/_zip/zip.c:118-199 | byte by byte: a bundle opens if and only if it ends with an end record of a directory of at most 65535 bytes that is inside of the file; which error it is otherwise; and where its offsets are counted from |
| Zip.LocatedExactly | player/src/pal/_zip/zip.c:292-344 | byte by byte: an entry is located if and only if its place holds a local header that says it is stored and has no flag but that of the language, and where its data are |
| Zip.WalksExactly | player/src/pal/_zip/zip.c:209-250 | byte by byte: an enumeration ends at an end record, goes on behind name, extra field and comment of a file header, and fails at anything else |
| Zip.MatchesExactly | player/src/pal/_zip/zip.c:486-535 | names are compared as they are, unless the entry was made on MS-DOS, NTFS or VFAT |
| Bitmap.GatherBit | player/src/gfx/ega.c:146-161 | bit by bit, a cell holds one plane of its eight pixels, the leftmost uppermost |
| Bitmap.DrawCell | player/src/gfx/ega.c:146-156 | the shifting loop gathers such a cell |
| Bitmap.DrawPlane | player/src/gfx/ega.c:136-166 | one plane of a chunk drawn from the top or the bottom, nothing else touched |
| Bitmap.DrawMono | player/src/gfx/ega.c:122-134 | a picture of one bit a pixel, the same on every plane |
| Bitmap.DrawBitmap | player/src/gfx/ega.c:100-171 | all four planes, red and blue having changed places; other depths are refused untouched |
| Bitmap.Prepare | player/src/sld/bmp.c:25-115 | accepts exactly the supported headers; the chunk is the most rows that fit the buffer, at least one |
| Bitmap.ChunkShown | player/src/sld/bitmap.c:189-234 | drawing the next rows at their place continues the picture, flipped or not, however far it hangs over the edges |
| Bitmap.TopOfChunk | player/src/sld/bitmap.c:189-234 | over any address, the row on top is the last one of the chunk that covers it, or else the one from before |
| Bitmap.ChunkDraws | player/src/sld/bitmap.c:189-234 | each chunk read from the file adds exactly its rows |
| Bitmap.Drawing.Load | player/src/sld/bmp.c:117-139 | the next chunk begins where the last one ended, is cut at the last row and fits the buffer |
| Bitmap.Aligned | player/src/sld/bitmap.c:138-155 | where a picture is placed: at its column, up to the right edge, or in the middle but for one odd column, also if it hangs over; four lines of a script are seven of the screen |
| Bitmap.Drawing.Start | player/src/sld/bitmap.c:112-187 | the first chunk is in memory, and a picture stored bottom-up is placed by its lower edge; in the middle or at the right edge it may begin left of the screen |
| Bitmap.Drawing.Read | player/src/sld/bitmap.c:189-234 | one call draws the chunk in memory and reads the next |
| Bitmap.Drawing.Execute | player/src/sld/bitmap.c:244-262 | the calls end, and all four planes show the whole picture, of any width and at any place, and nothing else |
| Bitmap.EveryPixelShown | player/src/gfx/ega.c:100-171 | every pixel of the file that is inside of the screen has its colour, red and blue exchanged, on the line that belongs to its row, however far the picture hangs over either edge, unless the row drawn next comes to it |
| Bitmap.PixelOnPlanes | player/src/gfx/ega.c:100-171 | all four planes at once: a pixel whose byte in the file is given has bit 2 of its colour on memory plane 0, bit 1 on plane 1, bit 0 on plane 2 and bit 3 on plane 3, at an address and bit given in numbers; in black and white it is on all planes |
| Bitmap.EveryScreenPixel | player/src/gfx/ega.c:100-171 | any pixel of the screen is the pixel of the last row drawn over its address, in one or four bits a pixel, or what it was before |
| Bitmap.OwnRow | player/src/gfx/ega.c:136-166 | a cell is hidden by no other row if and only if it is in the last row, or the next row does not come to it: drawn downwards, it is among the first 80, drawn upwards, the row is no longer than 80 more |
| Bitmap.OtherRow | player/src/gfx/ega.c:136-166 | which cells of a row a later one is drawn over |
| Bitmap.LongRowsHide | player/src/gfx/ega.c:136-166 | two rows of 81 cells drawn upwards, and two of 82 cells in the middle of the screen drawn downwards: the second hides a cell of the first on the screen |
| Bitmap.BesideExactly | player/src/gfx/ega.c:136-166 | nothing beside a picture is touched if and only if it hangs over neither edge |
| Bitmap.EveryOtherPixelKept | player/src/gfx/ega.c:100-171 | a pixel that is under none of the cells of a picture that ends on the screen keeps its colour |
| Ard.MightUse | ard/src/deps.c:63-82 | whether a source is among those of an unresolved dependency |
| Ard.CheckSources | ard/src/deps.c:31-61 | names the first dependency without a source, and none exactly when each has one |
| Ard.AssignedMove | ard/src/deps.c:84-157 | moving a dependency takes one from its old source's count and adds one to the new one's |
| Ard.ChosenIsOwn | ard/src/deps.c:84-157 | a dependency ends up with one of its own sources |
| Ard.ChosenExactly | ard/src/deps.c:111-124 | a dependency ends with the first source of the last unresolved one, from itself on, whose first source is one of its own |
| Ard.SomeLastAsked | ard/src/deps.c:98-125 | there is such a dependency as soon as it has a source |
| Ard.GetSources | ard/src/deps.c:84-157 | the list is ascending, holds exactly the sources in use, and serves every unresolved dependency by one of its own: the first source of the last one, from itself on, whose first source it can use |

## Left out

- User interface, wizard pages, message texts, QR codes and network clients: what they deliver is input.
- Hardware, operating system and allocator: abstract memory, file bytes and arbitrary answers.
- The pages of the wizard: which of them is shown and how it is left is input. That the wizard is left forwards from its last page only after an attempt succeeded is up to the pages, so a run that completes without an accepted key is not excluded.
- Stream.Stream.Prepare: the key schedule is a sequence, not an allocated array, so running out of memory is not modelled; an XOR key must not be empty.
- Enc.SavedKeyCompletes: the machine identifier and the stored state are the same in both runs.
- Content of block ciphers shorter than four bytes, where the size word would be read before the buffer.
- Tool.EncryptedText: the cryptographic library of the tool refuses some degenerate TDES keys; the round trip is stated for all of them.
- Tool.XoredText: keys of six bytes, as the tool makes them; the byte order of XOR keys between the tools is not modelled.
- Cache.FileCache.PalCache: sizes are at most 0xFC00; above, the number of kilobytes overflows 16 bits, so that the block is empty. The lock counter of the part stays below its maximum of 16 bits. The driver frees live blocks and moves what is inside of them without an error; a read that meets the end of its file leaves errno as it was. After a slot was left behind the cache is not followed further.
- Cache.FileCache.PalRead: the byte that an odd length stores behind the buffer of the client is not modelled.
- Cache.Serve: a part is not asked for again while it is open 0x7FFF times, so that no lock counter overflows; clients discard only what they hold.
- SoundBuffer.EveryByteIsTrack: the buffer has its fixed size of 4096 bytes, and positions stay below 2^32.
- Midi.MidiReader.ReadEvent: nothing is claimed about system-exclusive events, whose length is added to that of the previous message, nor about reads that report an underrun. A delta that does not end within four bytes is not noticed, and the returned size counts the type byte of a meta event twice, as in the original; what is consumed is stated by position.
- RemoteClient.Client.EnterConfirmation: the response is partly overwritten when a group is wrong; nothing is claimed about it then.
- The XOR12 form of product keys, and decoding product keys in Python.
- Runner.EveryRunIsTheScript: a run is followed up to its first error; what a called script does after an error is not modelled, nor are message texts, which share memory with the entry.
- Runner.Handler.Execute: drawing, playing and area entries only succeed, fail or continue; the runner does not look at what they do. The stack of contexts is a sequence instead of a linked list.
- Runner.Handler.HandleCall: what access and decryption of a called script come to is input here; the modules on encrypted content say when they succeed.
- Loader.ReadCall: the fields of the entry lie behind each other with their low bytes first, and a CRC of more than 32 bits is the largest one, as where long has 32 bits.
- Loader.LoadsLine: a call of encrypted content without data has a name of fewer than 30 characters.
- Loader.ReadEntry: a text that ends inside a line fails to load, where the original reads on behind it.
- Loader.ReadTagged: parts that the runner does not look at are not kept in its entries. The character conversion of texts is left out.
- Zip.FindsFirst: host systems that fold case, and the Unicode path field, are an arbitrary comparison; written bundles have other hosts.
- Zip.Archive.Open: the length of a bundle is that of its file; a signed executable's security directory is not looked at.
- Zip.Archive.Search: the comparison for hosts that fold case is given from outside. Writing files out and the cached variant are not modelled.
- Zip.Archive.EnumFiles: a directory that is cut short is the error Overrun, where the original reads on.
- Zip.Archive.GetData: a local header that cannot be read is an error. The original reports it with errno, which a read that meets the end of the file leaves as it was, so it may be zero.
- Zip.LoadsFirst: offsets are below 4 GiB, as the directory has them; where the program has 32 bits for an offset in a file, those from 2 GiB on are negative and refused.
- Bitmap.Drawing.Start: the search for the best variant is left out, and a column is below 0x8000.
- Bitmap.Drawing.Execute: addresses go round in the 64 kilobytes of a plane, as far pointers do, also in the copy function of the library. The width is not zero, and the file holds all rows. Scaling is left out.
- Bitmap.EveryPixelShown: the picture has so few lines that none comes round to another; the others are covered by Bitmap.EveryScreenPixel.
- Bitmap.Prepare: the header is given by its fields; the width fits the program's int after multiplication with the depth.
- Ard.GetSources: the first source of every unresolved dependency exists and is in range, as the original requires.
- Unused or trivial parts: division and colour helpers, clickable areas, the asset table, drivers, fonts, string resources, logging.
