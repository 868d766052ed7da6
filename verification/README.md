# A verified model of the SE05x provisioning CLI

`se05x_crypto_app` provisions an NXP SE05x secure element: it generates RSA keys
on the chip, makes PKCS#10 requests for them, stores small records, and rotates
the chip's SCP03 channel keys. This project models the parts of it that carry
algorithms and state, and proves what they promise.

- **Requests.** `Der`, `Csr`, `Pem`, `Spki` and `SssBackend` follow csr.cpp: the
  builders that fill a buffer from its end, against a strict parser of RFC 2986
  sections 4.1 and 4.2 that accepts exactly the encodings of requests.
- **Rotation.** `PutKey` builds the PUT KEY body and takes it apart as the card
  does; `KeyFile` and `KeyFileWrite` read and replace the key file, recording
  every state a crash could leave; `Rotation` is the protocol between host, card
  and disk over any number of runs; `RotateCommand` is the command itself, and
  `Runs` any sequence of its runs, killed anywhere, proved to take only the
  protocol's steps and so to be safe on every disk they leave; `Derive` and
  `Provision` add the script that derives the keys and drives the command, from its
  argument vector through the registry and the ISD channel to the card and the file.
- **Command line.** `Cli`, `Registry`, `Dispatch` and `Info` cover argument
  parsing, command look-up, the one channel each run opens, and the way of a
  record to the terminal and back.
- **Objects and sessions.** `ObjectStore` has the chip's objects with their
  policies under any sequence of commands on either path; `Pkcs11` has the
  operations of one PKCS#11 session.

What lies outside the repository enters as values with no more laws than are
needed. AES is a pair of functions of which `decrypt` undoes `encrypt`; AES-CMAC,
SHA-256 and RSA signing are functions; `sscanf("%02x")` is any function that reads
two hexadecimal digits as their octet. The mbedTLS writers are modelled by the DER
they write (X.690 sections 8.1.3 and 10.1), each writing all of it or nothing. The
outcomes of file-system, transport and chip calls, the environment, and key
material generated on the chip are parameters. Allocation always succeeds, and
`size_t` does not wrap.

Where the code and what is said of it disagree, the model follows the code:

- `Scp03KeyFile::write` does not leave the file and its backup intact on failure,
  as its header says; `KeyFileWrite.Write` says exactly when it does, and
  `KeyFileWrite.FailureMovesFile` has a failure after which it does not.
- `derive_scp03_keys.py` prints "keys NOT changed" for every exit code other than
  0, and "CLI updated" with the name of a file for 0; `Provision.DeriveAndRotate`
  says exactly when the first is wrong and when the second is right, and
  `Provision.SaysNotChanged` has runs in which the first is wrong.
- `writeBinary` with `force` is said to erase and replace; it ignores a failed
  erase. `ObjectStore.WriteReadsBack` says when the data read back, and
  `ObjectStore.OldTailReadBack` has data that do not.
- A key created as sign-only or sign-decrypt is meant to be there for good. Over
  PKCS#11 `genkey --force` ignores the refused deletion and generates all the same;
  `ObjectStore.CreatedKeyKeptIff` says exactly which sequences of commands keep the
  key, and `ObjectStore.RefusedEraseMustStop` has one that does not.
- `readBinary` and `publicKeyDer` make the same call on the element: `read-info`
  gives the public key of a key's id, and `rsa pub` the octets of a record.
- Tags in the key file are case-sensitive (`KeyFile.TagIsCaseSensitive`).
- `RsaKey::open` assumes 2048 bits, so that the larger keys `genkey` offers can be
  neither used for signing nor exported (`SssBackend.OnlyFor2048`). Created with a
  restricting policy, such a key cannot be removed either
  (`SssBackend.CreatedKeyUsableIff`), and `genkey --out` fails after it has made it
  (`SssBackend.NewKeyExits0Iff`).
- `rotateScp03` passes one IV array to two cipher calls. The wrapped key is the
  right one exactly if the host's cipher leaves that array zero
  (`PutKey.BodyRoundTrip`); the theorems about rotation assume that it does
  (`Rotation.KeepsIv`).
- A PKCS#11 operation stays active if the token reports length 0 or a length that
  turns out too small, or fails to end a search (`Pkcs11.IdleBetweenCalls`,
  `Pkcs11.ZeroLengthBlocks`).
- `argValue` sees tokens where `parseArgs` sees options with their values, and takes
  the first occurrence where `parseArgs` keeps the last. `Dispatch.AgreeIff` says
  exactly when they agree, and `Dispatch.PortAsLogPath` has a port given once on
  which they do not.

`dafny verify dfyconfig.toml` checks the whole project.

## Model

| member | source | states |
|---|---|---|
| Der.BigEndianRead | cpp_app/csr.cpp:46-73 | the octets of a long-form length read back as that length |
| Der.BigEndianWritten | cpp_app/csr.cpp:46-73 | octets without a leading zero are the minimal octets of the number they spell |
| Der.ReadElementIff | cpp_app/csr.cpp:46-73 | the strict reader returns an element and a rest exactly when its input is that element's DER followed by that rest |
| Der.ReadAllIff | cpp_app/csr.cpp:45-73 | octets read as a row of elements, all consumed, exactly when they are those elements' encodings in a row |
| Csr.ParseRequestIff | cpp_app/csr.cpp:34-137 | the parser of a whole CertificationRequest returns a request exactly when its input is that request's one DER encoding |
| Csr.CsrStructure | cpp_app/csr.cpp:35-137 | for any single-element name and key and any signature, a request that fits parses to version 0, that name, that key, no attributes, sha256WithRSAEncryption with NULL and that signature with 0 unused bits |
| Csr.FixedOctets | cpp_app/csr.cpp:45-137 | the fixed parts of a request, octet by octet |
| Csr.Writer.Write | cpp_app/csr.cpp:26-32 | a backward write puts all its octets below the pointer or fails, and leaves what is further below untouched |
| Csr.Writer.WriteHeader | cpp_app/csr.cpp:72-73 | length and tag prepended to what has been written, whose size `len` is, make its DER element; it fails exactly if that element exceeds the buffer |
| Csr.WriteCriBody | cpp_app/csr.cpp:45-69 | attributes, key, name and version written from the end stand in RFC order, `len` is their size, and it fails exactly if they do not fit |
| Csr.BuildCri | cpp_app/csr.cpp:35-76 | succeeds exactly if the subject is valid and the whole CertificationRequestInfo fits 4096 octets, and then returns exactly it; says which error the subject and an oversized key give |
| Csr.WriteCsrBody | cpp_app/csr.cpp:110-130 | signature, algorithm and request info written from the end stand in RFC order, or it fails exactly if they do not fit |
| Csr.AssembleDer | cpp_app/csr.cpp:104-136 | succeeds exactly if the whole CertificationRequest fits 8192 octets, and then returns exactly it |
| Csr.AssembleCsr | cpp_app/csr.cpp:104-137 | succeeds under the same condition, and the PEM text decodes to that request |
| Csr.MakeCsr | cpp_app/csr.cpp:141-154 | issues a PEM request exactly if every step can, signed over the digest of the info it carries |
| Csr.MakeCsrFullSign | cpp_app/csr.cpp:160-169 | the same when the signer takes the whole info |
| Csr.IssuedRequestIsSelfSigned | cpp_app/csr.cpp:141-169 | what a reader of an issued request finds is the name and key asked for, and the signer's answer on the encoding of the very info it finds |
| Pem.Base64RoundTrip | cpp_app/csr.cpp:78-87 | base64 of any octets decodes, strictly, to those octets |
| Pem.TestVectors | cpp_app/csr.cpp:78-87 | the base64 of one, two and three octets as in section 10 of RFC 4648, and the last two digits of the alphabet |
| Pem.WrapRoundTrip | cpp_app/csr.cpp:78-87 | text in lines of 64 characters is put together again by a strict reader of such lines |
| Pem.PemBytesIff | cpp_app/csr.cpp:78-99 | a PEM text decodes to given octets exactly when it is the one text written for them |
| Pem.PutLines | cpp_app/csr.cpp:81-83 | the copying loop appends exactly the lines of 64 characters |
| Pem.WriteBuffer | cpp_app/csr.cpp:81-85 | fills the buffer with the text and its NUL exactly if they fit |
| Pem.ToPem | cpp_app/csr.cpp:78-87 | twice the DER size and 256 more is always enough, so PEM output never fails for size |
| Pem.SpkiToPem | cpp_app/csr.cpp:91-99 | never fails, and its text decodes to the key it was made from |
| Spki.SpkiRoundTrip | cpp_app/pkcs11_ctx.cpp:258-269 | reading an encoded key gives back its modulus and exponent, up to leading zeros |
| Spki.IsPositiveInteger | cpp_app/pkcs11_ctx.cpp:258-269 | both numbers are written as positive ones, in as few octets as that takes |
| Spki.SpkiFits | cpp_app/pkcs11_ctx.cpp:267-269 | `modulus.size() + 128` holds the key whenever the exponent has at most 92 octets, and for full-length numbers of usual sizes only then |
| Spki.SizeOfGenerated | cpp_app/se05x_crypto.cpp:121-129 | the exact size of a key of 2048, 3072 or 4096 bits with exponent 65537 |
| Spki.GetSpki | cpp_app/pkcs11_ctx.cpp:227-275 | when it fails and how; otherwise exactly the key's DER; no failure for size with an exponent of at most 92 octets |
| Spki.IssuedRequestCarriesKey | cpp_app/crypto_backend.cpp:67-75 | a request issued on the PKCS#11 path parses to the token's own modulus and exponent |
| SssBackend.OnlyFor2048 | cpp_app/se05x_crypto.hpp:209 | an opened handle exports exactly if the pair has 2048 bits, and signs exactly if it also may sign |
| SssBackend.CreatedKeyUsableIff | cpp_app/se05x_crypto.cpp:64-129 | a key created with a restricting policy can, after any commands on either path, be signed with and exported over SSS exactly if it has 2048 bits, and can never be removed |
| SssBackend.NewKeyExits0Iff | cpp_app/commands.cpp:281-304 | `genkey` makes a new pair of any size but exits with 0 exactly if it is not to be exported or has 2048 bits |
| SssBackend.NoSecondTry | cpp_app/commands.cpp:289-299 | a pair with a restricting policy makes every later `genkey --force` over SSS fail, and stays |
| SssBackend.MakeCsr | cpp_app/crypto_backend.cpp:110-112 | on the SSS path a PEM request is made exactly if the key exports, fits and signs, and decodes to the specified request |
| SssBackend.RequestOfSoundPair | cpp_app/se05x_crypto.cpp:57-129 | for pairs of the sizes on offer a request is made exactly for 2048 bits, the right to sign and a subject that leaves room |
| SssBackend.RequestCarriesPair | cpp_app/csr.cpp:171-175 | such a request parses to the subject asked for, the pair's own modulus and exponent, and the pair's signature on the digest of the very info it carries |
| Hex.ScanCanonical | cpp_app/scp03_keyfile.cpp:20-28 | on canonical digits the reading loop yields the octets they spell |
| Hex.ScanEncoded | cpp_app/scp03_keyfile.cpp:89-94 | what `%02x` printed is read back as the same octets, whatever follows |
| Hex.LowerCase | cpp_app/scp03_keyfile.cpp:89-94 | digits are printed in lower case |
| Hex.Read | cpp_app/scp03_keyfile.cpp:20-28 | the loop stops at the first pair that does not scan, else fills the output with all of them |
| KeyFile.FindsFirstTaggedLine | cpp_app/scp03_keyfile.cpp:32-54 | in a file of lines that fit the buffer, the value on the first tagged line is found whatever the other lines are; without one, nothing |
| KeyFile.KeyLine | cpp_app/scp03_keyfile.cpp:41-49 | on a line of blanks, the tag, a blank, more blanks and a value, the value is found |
| KeyFile.TaggedIff | cpp_app/scp03_keyfile.cpp:41-49 | a line is taken exactly if it is blanks, the tag, a blank and anything |
| KeyFile.FindsFirstKeyLine | cpp_app/scp03_keyfile.cpp:32-54 | in a file of lines of at most 511 characters the key is the value on the first such line, whatever the others are; without one there is none |
| KeyFile.IndentedKeyFound | cpp_app/scp03_keyfile.cpp:41-49 | an indented key is found |
| KeyFile.FindKey | cpp_app/scp03_keyfile.cpp:32-54 | the loop over `fgets` chunks finds and stores what the specification finds; the first tagged line decides even when malformed |
| KeyFile.TagIsCaseSensitive | cpp_app/scp03_keyfile.cpp:44 | a lower-case tag gives no key |
| KeyFile.Read | cpp_app/scp03_keyfile.cpp:62-70 | all three keys or the exception |
| KeyFile.ReadAfterWrite | cpp_app/scp03_keyfile.cpp:58-97 | reading the text written for a key set gives that key set, and `readDek` its DEK |
| KeyFile.TextIs | cpp_app/scp03_keyfile.cpp:89-97 | the file as it stands on disk |
| KeyFileWrite.BackUp | cpp_app/scp03_keyfile.cpp:73-81 | a file that can be opened moves to the backup name, crash-safely at every point; else nothing changes |
| KeyFileWrite.Replace | cpp_app/scp03_keyfile.cpp:83-107 | the path changes only to the complete new text, in one step, at every crash point and on every failure |
| KeyFileWrite.Write | cpp_app/scp03_keyfile.cpp:72-108 | at every crash point and at its end the path is absent, old or complete and new, and openable old contents survive at the path or the backup; succeeds, leaving the new text, exactly if no call it depends on fails; which error it throws; a failure leaves both files as they were exactly under the stated guard |
| KeyFileWrite.FailureMovesFile | cpp_app/scp03_keyfile.cpp:72-108 | a failed last rename after which nothing is at the path and the older backup is lost |
| PutKey.XorIdentity | cpp_app/scp03_rotate.cpp:83-84 | combining a block with an IV leaves it as it was exactly if the IV is zero |
| PutKey.GenKcvAndEncryptKey | cpp_app/scp03_rotate.cpp:86-167 | stores the check value the card will compute and the key wrapped under the IV that the first cipher call left, and nothing else |
| PutKey.CreateKeyData | cpp_app/scp03_rotate.cpp:172-181 | appends one 23-octet key block and returns its size |
| PutKey.BuildPutKey | cpp_app/scp03_rotate.cpp:214-230 | the loop over three keys builds the specified body and expected echo, or fails at the first host failure |
| PutKey.BodyOctets | cpp_app/scp03_rotate.cpp:172-230 | the command body octet by octet: the version, and for ENC, MAC and DEK type, lengths, wrapped key, and the check value with its length |
| PutKey.EchoOctets | cpp_app/scp03_rotate.cpp:218-230 | the expected answer: the version and the three check values of sixteen ones, in order |
| PutKey.HeaderOctets | cpp_app/scp03_rotate.cpp:33-40 | the command header: 0x80, 0xD8, the version, and the version with its highest bit set |
| PutKey.OtherCommandRefused | cpp_app/scp03_rotate.cpp:237-240 | the card takes the keys under no other class or instruction |
| PutKey.BodyRoundTrip | cpp_app/scp03_rotate.cpp:111-181 | the card recovers exactly the version and the three keys in order exactly if the host's cipher leaves the shared IV zero |
| Rotation.CommandInstallsTarget | cpp_app/scp03_rotate.cpp:214-268 | a command wrapped with the card's own DEK installs exactly the new keys and yields the expected echo, or changes nothing |
| Rotation.NextKeepsInvariant | cpp_app/scp03_rotate.cpp:187-273 | every step of the protocol, including a crash, keeps the invariant of its phase and the key version |
| Rotation.EveryStateIsSafe | cpp_app/scp03_rotate.cpp:187-273 | over every sequence of runs with crashes anywhere, the card's keys are the file's or the latest run's new ones, and while they differ from the file's the previous set is whole at the path or the backup |
| RotateCommand.Device.LoadCurrentDek | cpp_app/scp03_rotate.cpp:63-81 | loads the environment file's DEK, or fails, telling an unset path apart |
| RotateCommand.InstallsAllOrNothing | cpp_app/scp03_rotate.cpp:187-273 | with the card's own DEK in the file, the card ends with exactly the new keys or unchanged, and the run confirms exactly if command and answer both got through unrefused |
| RotateCommand.ConfirmedByChecks | cpp_app/scp03_rotate.cpp:195-268 | whatever the chip: a rotation is confirmed only at security level 0x33, by an answer of the version, the three check values and 90 00 |
| RotateCommand.Device.RotateScp03 | cpp_app/scp03_rotate.cpp:187-273 | sends PUT KEY at most once, only at level 0x33 with the DEK loaded and the body built, never in a dry run; returns normally exactly if the expected echo came back, which carries the three check values |
| RotateCommand.Device.RotateAndSave | cpp_app/commands.cpp:175-204 | once keys and confirmation are checked: the card, the disk at every crash point, the output, and the exit code on every path |
| RotateCommand.Device.Persist | cpp_app/commands.cpp:193-204 | exits 0 with the new keys in the file exactly if no call that the save depends on fails, else 1 having printed them; crash-safe throughout |
| RotateCommand.Device.Run | cpp_app/commands.cpp:162-205 | sends at most once; exits 0 exactly if the card confirms and the file can be saved, or a dry run is ready; exits 1, having printed the keys, exactly if the card confirms and the save fails; throws in every other case and leaves the disk alone; the branch without a key file is unreachable |
| Runs.AttemptIsBehaviour | cpp_app/scp03_rotate.cpp:187-273 | what a run may do to card and disk is a stretch of a behaviour of the protocol, on from wherever the runs before it have led, through every disk at which it could be killed |
| Runs.RunAsBehaviour | cpp_app/commands.cpp:162-205 | one run of the command, left to end or killed at the disk named, after any runs before it: it takes only steps of the protocol, and every disk that the file system recorded is safe |
| Runs.RunAll | cpp_app/commands.cpp:162-205 | any sequence of runs, each started only if the file holds the card's keys, with any failures and each killed at the disk named: on every disk that the file system recorded, and every other on the way, the card's keys are the file's, or they are the latest run's new ones and the set before them is whole at the path or the backup |
| Derive.SameKeyFile | tools/derive_scp03_keys.py:81-82 | the script's key file text and the CLI's are the same byte for byte |
| Derive.ParseKey16 | cpp_app/commands.cpp:66-78 | exactly 32 characters, read as 16 octets, or the exception |
| Derive.Key16Is | cpp_app/commands.cpp:66-78 | any other length is refused, and 32 digits are what they spell |
| Derive.MessagesDiffer | tools/derive_scp03_keys.py:57-66 | no two keys, of one device or of two, come from the same message |
| Derive.KeysDiffer | tools/derive_scp03_keys.py:57-66 | unless AES-CMAC collides on their messages, two derived keys are equal exactly if they are the same key of the same device |
| Derive.ArgvDelivers | tools/derive_scp03_keys.py:100-111 | whatever whole options precede them, the three keys on the built command line are parsed back to the same octets for the command meant |
| Provision.DryRunWhenAsked | tools/derive_scp03_keys.py:100-109 | the CLI takes the run for a dry one exactly if it was asked for or the extra arguments say so |
| Provision.RunMain | cpp_app/main.cpp:50-138 | one process of the CLI on a vector that asks for a rotation: through the registry over the one channel that skips the applet; card, file and exit code for every way it can fail or be killed |
| Provision.RunRotation | tools/derive_scp03_keys.py:100-111 | such a process on the vector built for the keys: a dry run changes nothing; a real one reports 0 exactly if it connects, the card confirms, the new file can be saved and it is not killed, and then the file has its text |
| Provision.DeriveAndRotate | tools/derive_scp03_keys.py:159-177 | exactly when a real run reports 0, with the derived keys then on the card and whole in the file; exactly when "keys NOT changed" is printed although they are; exactly when "CLI updated" names the file that was |
| Provision.MisreportsIff | tools/derive_scp03_keys.py:167-177 | "keys NOT changed" is wrong exactly if the command arrives with new keys and its answer is lost, the file cannot be saved, or the process is killed |
| Provision.PathIsWhere | tools/derive_scp03_keys.py:169-174 | the file named in the message is the one the CLI saves in exactly if the script was given it or the extra arguments name no other |
| Provision.SaysNotChanged | tools/derive_scp03_keys.py:159-177 | for any cipher and any new keys, a run whose answer is lost and one that is killed after it: the message is printed, the card holds the derived keys, and no file has them |
| Cli.UnitsIff | cpp_app/cli.cpp:22-35 | every token list is the rendering of exactly one well-formed sequence of positionals, flags and options |
| Cli.ParseArgs | cpp_app/cli.cpp:19-45 | the index loop computes the meaning of argv's units: first three positionals, last-wins options, the rng shorthand |
| Cli.NamesOf | cpp_app/cli.cpp:36-44 | group, command and third name are the positionals in order; `rng` without a third takes the second for it |
| Cli.RngCount | cpp_app/cli.cpp:42-43 | `rng 16` delivers its count |
| Cli.BoolFlags | cpp_app/cli.cpp:11-16 | the seven options without a value; any other token after two dashes takes one |
| Cli.RecordedAs | cpp_app/cli.cpp:22-35 | what a flag, an option with its value and one left without it record |
| Cli.LastSettingWins | cpp_app/cli.cpp:22-31 | an option has the value of the last unit that sets it, and is absent if none does |
| Cli.OrderDoesNotMatter | cpp_app/cli.cpp:19-45 | command lines with the same positionals and the same settings per option mean the same, however interleaved |
| Cli.ParseYieldsParsed | cpp_app/cli.cpp:19-45 | what every parsed command line satisfies |
| Cli.PrintThenParse | cpp_app/cli.cpp:19-45 | printing a parsed command line, options in any order, and parsing it again is the identity |
| Registry.IndexedAt | cpp_app/commands.cpp:420-426 | what the index holds for any key after a name and its aliases have been put in |
| Registry.RotateIsFound | cpp_app/commands.cpp:428-453 | among the commands of the program, `se rotate-scp03` finds its own |
| Registry.CommandRegistry.Add | cpp_app/commands.cpp:420-426 | keeps the index in agreement with the scan of all added commands |
| Registry.LastNamedIs | cpp_app/commands.cpp:444-453 | the scan finds a command that answers if no later one does, whatever was added before it |
| Registry.CommandRegistry.Find | cpp_app/commands.cpp:444-453 | the last-added command of that group with that name or alias, else the last-added group default, else none |
| Registry.FallsBack | cpp_app/commands.cpp:444-453 | without a command of that name the group's default is taken, and nothing else |
| Registry.RngIsDefault | cpp_app/commands.cpp:444-453 | `rng` with any second token finds the random numbers |
| Registry.ProvisionIsGenkey | cpp_app/commands.cpp:275-275 | the alias finds its command |
| Dispatch.ArgValue | cpp_app/main.cpp:36-41 | the loop returns the token after the first occurrence |
| Dispatch.ArgValueFinds | cpp_app/main.cpp:36-41 | on any command line, the first unit to mention the flag decides; where it is only the value of another option, the next unit's first token comes back |
| Dispatch.AgreeIff | cpp_app/main.cpp:79-82 | `argValue` and the parsed arguments agree on an option exactly under the stated condition on the unit that mentions it first and the one that sets it last |
| Dispatch.GivenOnce | cpp_app/main.cpp:79-82 | for an option given once, with a value, and not named before as another's value, both find that value |
| Dispatch.PortAsLogPath | cpp_app/main.cpp:36-82 | `--log --port --port x`: `argValue` finds "--port", the parsed arguments have x |
| Dispatch.PortChosen | cpp_app/main.cpp:79-111 | over SSS, a port given once is the port whatever the environment holds; without one mentioned it is the environment's |
| Dispatch.PathChosen | cpp_app/main.cpp:82-111 | a cryptographic command with a library given once gets PKCS#11 with that library, every other command SSS, and only one for the ISD skips the applet |
| Dispatch.RotatesOnPortGiven | cpp_app/main.cpp:79-111 | `se rotate-scp03 --port b` opens the ISD channel on b, also if the environment names another |
| Dispatch.Program.Connect | cpp_app/main.cpp:65-124 | finds the command named and opens the one channel it needs, or opens none and leaves none open |
| Dispatch.Program.Execute | cpp_app/main.cpp:65-138 | runs the command named exactly if it exists and its channel opens; one channel, the one it needs, closed on every path; the exit code |
| Info.BytesToDisplay | cpp_app/commands.cpp:102-118 | text if all octets are printable and there are any, else hexadecimal |
| Info.DisplayIsClean | cpp_app/commands.cpp:102-118 | what is shown has no control character but tab, newline and return; text is shown exactly for octets without them |
| Info.InfoData | cpp_app/commands.cpp:82-99 | exactly one of text and hexadecimal, with each error case |
| Info.ExactlyOne | cpp_app/commands.cpp:82-99 | both options and neither are refused; each alone gives its octets |
| Info.PrintedRecordReadBackIff | cpp_app/commands.cpp:238-246 | the line `read-info` prints, given to `write-info` or `verify-info`, yields the same record exactly for displays up to 510 characters (or text of 511 without a final newline); longer hexadecimal is refused |
| ObjectStore.SecureElement.EraseKey | cpp_app/se05x_crypto.cpp:19-24 | removes the object, or throws and leaves it |
| ObjectStore.SecureElement.WriteCert | cpp_app/se05x_provision.cpp:85-92 | an erase whose failure is ignored and a store; on success the certificate is there, alone if the old object was erased |
| ObjectStore.SecureElement.WriteBinary | cpp_app/se05x_provision.cpp:96-108 | skips exactly if the object is there and force is not given; if it says that it wrote, the data are there, alone if the old object was absent or erased |
| ObjectStore.SecureElement.ReadBinary | cpp_app/se05x_provision.cpp:110-126 | returns exactly what the element shows of the object, a record's octets or a pair's public key, if that has at most 2048 octets, and tells a missing object apart |
| ObjectStore.SecureElement.VerifyInfo | cpp_app/commands.cpp:258-268 | exit code 0 exactly if what can be read at the id is what is expected, 2 exactly if it is something else |
| ObjectStore.SecureElement.DeleteKey | cpp_app/crypto_backend.cpp:87-90 | a key is gone afterwards or the call throws and changes nothing |
| ObjectStore.SecureElement.DestroyPair | cpp_app/crypto_backend.cpp:38-41 | removes a pair exactly if it may be deleted and one of the two calls gets through; never fails |
| ObjectStore.SecureElement.GenkeyOverPkcs11 | cpp_app/commands.cpp:281-304 | `genkey --pkcs11`: the same on the other path, where a refused deletion stops nothing |
| ObjectStore.SecureElement.Genkey | cpp_app/commands.cpp:281-304 | the store and the outcome for every combination of existing object, force, export and failures; the export comes last and may fail after the store has changed |
| ObjectStore.RestrictedObjectKeptIff | cpp_app/crypto_backend.cpp:38-95 | over every sequence of commands on either path, with any flags and failures, an object that may not be deleted, and is a key or may not be written, stays as it is exactly if no `genkey --pkcs11 --force` regenerates it |
| ObjectStore.RestrictedPairStaysRestricted | cpp_app/se05x_provision.cpp:157-191 | whatever is run, such a pair keeps its size and its policy and can never be deleted |
| ObjectStore.CreatedKeyKeptIff | cpp_app/se05x_provision.cpp:157-191 | a key created over SSS as sign-only or sign-decrypt keeps material, size and policy through exactly the sequences without a `genkey --pkcs11 --force` of its size that puts another key in; over SSS alone always |
| ObjectStore.KeptUnderEveryOutcomeIff | cpp_app/crypto_backend.cpp:38-46 | such a pair outlives a row of command lines whatever comes of each exactly if no `genkey --pkcs11 --force` with its id and size is among them |
| ObjectStore.RefusedEraseMustStop | cpp_app/commands.cpp:289-299 | the same two command lines but for `--pkcs11`: over SSS the refused erase stops the second `genkey --force`, over PKCS#11 the key is replaced |
| ObjectStore.GentleCommandsKeepObjects | cpp_app/commands.cpp:217-304 | without `--force` and `write-cert` every existing object stays as it is |
| ObjectStore.OthersDoNotMatter | cpp_app/commands.cpp:217-304 | commands on other ids leave an object, or its absence, as it is |
| ObjectStore.WriteReadsBack | cpp_app/se05x_provision.cpp:96-126 | a write, forced or to a free id, reads back exactly, after any commands on other ids, if and only if it fits and the old object was absent, erased, or of the same size |
| ObjectStore.CertificateReadsBack | cpp_app/se05x_provision.cpp:85-126 | the same of a certificate |
| ObjectStore.FreshObjectStays | cpp_app/commands.cpp:217-304 | a new record and a new key, on either path, are there after any commands on other ids |
| ObjectStore.DeletablePairReplaced | cpp_app/commands.cpp:289-300 | a forced `genkey` replaces a pair that may be deleted, on either path |
| ObjectStore.RightsGranted | cpp_app/se05x_provision.cpp:157-186 | what each policy grants |
| ObjectStore.OldTailReadBack | cpp_app/se05x_provision.cpp:96-126 | one octet written with force over three, after a failed erase: three come back |
| Pkcs11.Session.OneShot | cpp_app/pkcs11_ctx.cpp:155-218 | the result of init, length query and execution, and the state they leave the session in |
| Pkcs11.Session.VerifyRsa | cpp_app/pkcs11_ctx.cpp:173-182 | true exactly for a valid signature under an accepted init, and the session as it was |
| Pkcs11.Session.FindKey | cpp_app/pkcs11_ctx.cpp:133-148 | the handle found, or none, and the session: as it was, unless the end of the search fails |
| Pkcs11.IdleBetweenCalls | cpp_app/pkcs11_ctx.cpp:133-218 | over every sequence of calls, failing ones included, the session is idle at the end and no Init met an active operation, exactly if the token's length answers are consistent and it never fails to end a search |
| Pkcs11.IdleIff | cpp_app/pkcs11_ctx.cpp:133-218 | the same condition, in the token's own answers |
| Pkcs11.ZeroLengthBlocks | cpp_app/pkcs11_ctx.cpp:155-171 | a reported length of 0 leaves the operation active, and whatever call comes next is refused |

## Left out

- Subject names are not parsed from strings: the encoded name, or the failure to get one, is an input of `Csr.BuildCri`.
- Failed mbedTLS writes may move the pointer part of the way; the model's writes are all or nothing, and every failure ends in an exception either way.
- `sscanf("%02x")` on anything but two hexadecimal digits, and reads past the end of a short line, are left open.
- Durability across power loss is not modelled: a crash is the death of the process, and a completed rename stays.
- The card's answer is either lost or arrives as sent; R-MAC protects it. The command's own contract allows any chip; the protocol's theorems take the card of `PutKey.Process`. P2 is sent as the code builds it, and the model's card does not look at it.
- The session before a rotation is modelled by its condition: in `Runs` it opens only if the key file holds the card's own keys; in `Provision` the channel opens or not by the circumstances.
- Recovery by an operator after a failed save is not modelled; the theorems say what there is to recover from.
- ObjectStore.SecureElement.ObjectExists: look-ups are reliable, because a failed look-up cannot be told from a missing object.
- Overwriting an existing writable object in place keeps the tail of longer old contents; this is a property of the chip, taken from its applet's behaviour.
- The PKCS#11 module is modelled as handing each call on to the element: a generation under an existing object's id reaches that object, as pkcs11_ctx.hpp says of ids; the module itself is not part of this model.
- RSA encryption and decryption on the SSS path, random numbers, the UID, certificate parsing and `verify-binding` are calls into libraries with little around them.
- Key generation, deletion and random numbers over PKCS#11 use no session operation and are not calls of `Pkcs11`; what a throwing `Pkcs11Ctx` constructor leaves open is left out.
- Of the thirteen commands of the registry, `se rotate-scp03` is the one that `main` is composed with.
- Logging, usage text, status-word texts, output files and file modes.
- `read_uid_from_device` and `parse_hex` of the script: keys start from octets.
- The demos under `examples/`, the shell scripts and the build files.
