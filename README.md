# La Marzocco display firmware — a verified model of its logic

The firmware drives a small display beside a La Marzocco espresso machine.
It signs in to the La Marzocco cloud, keeps an access token fresh, and opens a
STOMP-over-websocket channel to the machine's dashboard topic. It reduces each
dashboard message to machine, boiler, brewing and water state. From that state
it runs:

- two boiler countdowns, OFF/HEATING/READY;
- a brewing timer, IDLE/ACTIVE/FLASHING;
- an activity monitor.

This project models that logic in Dafny and proves properties of it:

- `ints.dfy`, `wrappers.dfy`, `strings.dfy`: the C integer types with explicit
  wrap-around, truncating division, `Option`, and the Arduino `String` and
  `<string.h>` operations the code relies on.
- `base64.dfy`, `uuid.dfy`, `auth.dfy`, `prefs.dfy`: `LaMarzoccoAuth`. This covers
  - base64 encode and decode (RFC 4648 section 4, permissive decoder);
  - the version-4 UUID text (RFC 4122 section 4.4);
  - the request-proof byte loop;
  - the base string, secret, proof input and signature assembly;
  - saving and loading the installation key in the ESP32 `Preferences`
    key/value store.
- `client.dfy`: `LaMarzoccoClient`. This covers
  - initialisation;
  - the sign-in, refresh and renewal decisions over the access token;
  - client registration;
  - `api_call` classification.
- `stomp.dfy`, `channel.dfy`: `LaMarzoccoWebSocket`. This covers
  - the STOMP 1.2 frame encoder and decoder;
  - the event handler's state machine over `_connected`, `_subscription_id`
    and `_cached_token`;
  - `connect` and `disconnect`, with every frame and transport action kept in
    a log.
- `machine.dfy`: `LaMarzoccoMachine`. This covers
  - the widget reduction of a dashboard message;
  - the calls it dispatches to the water alarm, the brewing display, the
    boiler display and the activity monitor;
  - the power and steam commands;
  - the reconnect throttle.
- `boiler.dfy`: `boiler_display.cpp`. It holds the two-boiler array, the
  remaining-time arithmetic, the arc and label values and the update timer.
- `brewing.dfy`: `brewing_display.cpp`. It holds the brewing state machine, the
  final-seconds capture, the 3 s flash and the GPIO simulation.
- `activity.dfy`: `activity_monitor.cpp`.

Stateful code is modelled as classes whose methods are proved against
specification functions, for example `View() == Updated(old(View()), …)`. The
properties (invariants, priorities, round trips) are lemmas about those
functions.

The following are parameters:

- the clocks (`millis()`, the wall clock, the uptime in seconds);
- the 16 random bytes of a UUID;
- SHA-256 (an uninterpreted function onto 32-byte digests);
- the ECDSA signer (an outcome record);
- the HTTP status codes and reply fields;
- the transport's send results;
- GUI-mutex acquisition.

## Model

| member | source | states |
|---|---|---|
| `Ints.U32` | src/activity_monitor.cpp:47 | `(uint32_t)` cast: identity on the range, otherwise congruent modulo 2^32 |
| `Ints.I32` | src/boiler_display.cpp:376-397 | `(int)` narrowing: identity on the range, otherwise congruent modulo 2^32 |
| `Ints.I64` | src/boiler_display.cpp:376-397 | `int64_t` arithmetic: identity on the range, otherwise congruent modulo 2^64 |
| `Ints.Quot` | src/boiler_display.cpp:376-397 | C division truncates toward zero: the remainder has the sign of the dividend and is smaller than the divisor |
| `Ints.Rem` | src/brewing_display.cpp:325-356 | C `%`: dividend = divisor * quotient + remainder, with the remainder's sign and bound |
| `Strings.TrimStart` | src/lamarzocco_websocket.cpp:75-145 | `String::trim` front: drops exactly the leading whitespace |
| `Strings.TrimEnd` | src/lamarzocco_websocket.cpp:75-145 | `String::trim` back: drops exactly the trailing whitespace |
| `Strings.TrimUnspaced` | src/lamarzocco_websocket.cpp:75-145 | trimming text without surrounding whitespace returns it unchanged |
| `Strings.IndexOfFrom` | src/lamarzocco_websocket.cpp:75-145 | `indexOf(c, from)`: the first occurrence at or after `from`, or none |
| `Strings.IndexOf` | src/lamarzocco_websocket.cpp:75-145 | `indexOf(c)`: the first occurrence, or none when `c` does not occur |
| `Strings.IndexOfPairFrom` | src/lamarzocco_websocket.cpp:75-145 | `indexOf("\n\n", from)`: the first place of the pair at or after `from` |
| `Strings.IndexOfPair` | src/lamarzocco_websocket.cpp:88-145 | the first "\n\n", or none when the text has no blank line |
| `Strings.CPrefix` | src/lamarzocco_websocket.cpp:75-145 | the C string seen through a `char*`: the longest NUL-free prefix |
| `Strings.Truncate` | src/lamarzocco_machine.cpp:203-210 | a 16-byte buffer keeps a prefix of at most 15 characters |
| `Strings.DigitChar` | src/lamarzocco_auth.cpp:204-208 | the decimal digit of a value below 10 |
| `Strings.DigitValue` | src/lamarzocco_auth.cpp:204-208 | the inverse of `DigitChar` |
| `Strings.NatToString` | src/lamarzocco_auth.cpp:204-208 | `String(unsigned long)`: decimal digits, no leading zero, reading back to the number |
| `Strings.IntToString` | src/brewing_display.cpp:325-356 | `%d`: a '-' before the digits of a negative value, and the plain digits otherwise |
| `Strings.NatToStringInjective` | src/lamarzocco_auth.cpp:204-208 | distinct numbers give distinct texts |
| `Base64.CharOf` | src/lamarzocco_auth.cpp:15-57 | every sextet maps into the RFC 4648 alphabet |
| `Base64.Lookup` | src/lamarzocco_auth.cpp:73-79 | `strchr(alphabet, c) - alphabet`: the inverse of `CharOf` on the alphabet; 64 for NUL, the terminator's position |
| `Base64.LookupCharOf` | src/lamarzocco_auth.cpp:15-116 | decoding a character undoes encoding a sextet |
| `Base64.Chars` | src/lamarzocco_auth.cpp:15-57 | a sequence of sextets as alphabet characters, position by position |
| `Base64.Lookups` | src/lamarzocco_auth.cpp:73-79 | a group of characters as sextets, position by position |
| `Base64.LookupsChars` | src/lamarzocco_auth.cpp:15-116 | looking up the characters of sextets gives the sextets back |
| `Base64.Sextets` | src/lamarzocco_auth.cpp:15-57 | three bytes split into four values below 64 |
| `Base64.OctetsOfSextets` | src/lamarzocco_auth.cpp:15-116 | rejoining the four sextets of three bytes gives the bytes |
| `Base64.OctetsOfShortGroup1` | src/lamarzocco_auth.cpp:93-113 | a two-character tail group gives back its one byte |
| `Base64.OctetsOfShortGroup2` | src/lamarzocco_auth.cpp:93-113 | a three-character tail group gives back its two bytes |
| `Base64.GroupChars` | src/lamarzocco_auth.cpp:22-35 | a full group is four alphabet characters |
| `Base64.TailChars` | src/lamarzocco_auth.cpp:37-54 | a one- or two-byte tail is four characters, the last 3 − k of them '=' |
| `Base64.EncodeSpecAppend` | src/lamarzocco_auth.cpp:15-57 | encoding works group by group: a prefix of whole groups encodes separately |
| `Base64.EncodeGroupStep` | src/lamarzocco_auth.cpp:22-35 | each full group of the loop appends its four characters |
| `Base64.EncodeTailStep` | src/lamarzocco_auth.cpp:37-54 | the final partial group appends its padded tail |
| `Base64.EncodeTail` | src/lamarzocco_auth.cpp:37-54 | an input of one or two bytes encodes to its tail group |
| `Base64.Encode` | src/lamarzocco_auth.cpp:15-57 | the encoding loop computes the group-by-group encoding |
| `Base64.PadCount` | src/lamarzocco_auth.cpp:37-54 | the padding count is below 3 and completes the length to a multiple of 3 |
| `Base64.PaddedPrepend` | src/lamarzocco_auth.cpp:15-57 | full groups before a padded text keep its padding |
| `Base64.EncodeShapeGroups` | src/lamarzocco_auth.cpp:15-57 | g full groups and a rest of r give 4g (+4) characters with 3 − r '=' |
| `Base64.EncodeShape` | src/lamarzocco_auth.cpp:15-57 | the output has 4·⌈n/3⌉ characters and ends in (3 − n mod 3) mod 3 '=' |
| `Base64.DivThree` | src/lamarzocco_auth.cpp:15-57 | ⌈n/3⌉ and the padding count in terms of n mod 3 |
| `Base64.StopIndexFrom` | src/lamarzocco_auth.cpp:69-71 | the scan from `from` stops at the first character outside the alphabet, or at the end |
| `Base64.StopIndex` | src/lamarzocco_auth.cpp:69-71 | the decoder reads an alphabet-only prefix and stops at the first '=' or foreign character |
| `Base64.Base64Extend` | src/lamarzocco_auth.cpp:69-71 | one more alphabet character extends the scanned prefix |
| `Base64.Base64Prefix` | src/lamarzocco_auth.cpp:69-71 | a prefix of a scanned prefix is alphabet-only too |
| `Base64.StopIndexUnique` | src/lamarzocco_auth.cpp:69-71 | the stopping point is the only alphabet-only prefix followed by a stop |
| `Base64.GroupBytes` | src/lamarzocco_auth.cpp:82-84 | four characters give three bytes |
| `Base64.NulFilled` | src/lamarzocco_auth.cpp:93-96 | the tail group keeps its characters and fills the rest with 0 |
| `Base64.DecodeCharsAppend` | src/lamarzocco_auth.cpp:69-116 | decoding works group by group |
| `Base64.DecodeGroupStep` | src/lamarzocco_auth.cpp:72-90 | each full group of the loop appends its three bytes |
| `Base64.Base64Slices` | src/lamarzocco_auth.cpp:69-116 | the scanned prefix splits into the groups done and the rest |
| `Base64.DecodeTailStep` | src/lamarzocco_auth.cpp:93-114 | a trailing group of k characters appends k − 1 bytes |
| `Base64.Decode` | src/lamarzocco_auth.cpp:59-117 | the decoding loop always succeeds and computes the decoding of the scanned prefix |
| `Base64.DecodeCharsLength` | src/lamarzocco_auth.cpp:69-116 | g full groups and a rest of k (1..3) characters give 3g + k − 1 bytes |
| `Base64.DecodeLength` | src/lamarzocco_auth.cpp:69-116 | the output length in terms of where the scan stopped |
| `Base64.GroupRoundTrip` | src/lamarzocco_auth.cpp:15-116 | a full group decodes back to its three bytes |
| `Base64.TailRoundTrip1` | src/lamarzocco_auth.cpp:37-114 | a one-byte tail decodes back to its byte |
| `Base64.TailRoundTrip2` | src/lamarzocco_auth.cpp:37-114 | a two-byte tail decodes back to its bytes |
| `Base64.DecodeOneGroup` | src/lamarzocco_auth.cpp:72-90 | a single full group decodes to its three bytes |
| `Base64.UnpaddedStep` | src/lamarzocco_auth.cpp:15-116 | one more leading group keeps the round trip of the unpadded encoding |
| `Base64.EncodeFirstGroup` | src/lamarzocco_auth.cpp:22-35 | the encoding starts with the first group's characters |
| `Base64.PrependGroup` | src/lamarzocco_auth.cpp:15-116 | a full group in front decodes to its bytes in front |
| `Base64.UnpaddedDecodes` | src/lamarzocco_auth.cpp:15-116 | the encoding without its padding is alphabet-only and decodes to the input |
| `Base64.UnpaddedTail` | src/lamarzocco_auth.cpp:37-114 | the same for inputs shorter than one group |
| `Base64.DecodeEncodeThen` | src/lamarzocco_auth.cpp:15-117 | decoding an encoding followed by any stop character gives the input |
| `Base64.DecodeEncode` | src/lamarzocco_auth.cpp:15-117 | `base64_decode(base64_encode(x)) == x` for every byte sequence |
| `Uuid.HexChar` | src/lamarzocco_auth.cpp:119-139 | `%02x` digits are lower-case hexadecimal |
| `Uuid.HexValue` | src/lamarzocco_auth.cpp:119-139 | a hexadecimal digit reads back to its value |
| `Uuid.Stamped` | src/lamarzocco_auth.cpp:124-125 | byte 6 gets version 4 in its high nibble and byte 8 the variant bits 10, with the other bits and bytes kept |
| `Uuid.DashCount` | src/lamarzocco_auth.cpp:130-136 | at most four dashes |
| `Uuid.PrefixStep` | src/lamarzocco_auth.cpp:130-136 | each byte appends its two digits, after a dash before bytes 4, 6, 8 and 10 |
| `Uuid.PrefixHasShape` | src/lamarzocco_auth.cpp:127-136 | the text after n bytes has its digits and dashes in place |
| `Uuid.GenerateUuid` | src/lamarzocco_auth.cpp:119-139 | the formatting loop computes the dashed hexadecimal text of the stamped bytes |
| `Uuid.UuidFormat` | src/lamarzocco_auth.cpp:119-139 | 36 characters, '-' exactly at 8, 13, 18 and 23, lower-case hex elsewhere, '4' at 14, one of 8, 9, a, b at 19 |
| `Uuid.UuidDecodes` | src/lamarzocco_auth.cpp:119-139 | each pair of digits reads back to its stamped byte |
| `Uuid.HexRoundTrip` | src/lamarzocco_auth.cpp:119-139 | reading a digit back gives its value |
| `Auth.BytesOf` | src/lamarzocco_auth.cpp:148 | `c_str()` hands the hash one byte per character |
| `Auth.BaseString` | src/lamarzocco_auth.cpp:162-173 | the id, '.', and 44 characters that decode to SHA-256 of the public key; it does not depend on the secret or the private key |
| `Auth.EncodedDigest` | src/lamarzocco_auth.cpp:152 | a digest encodes to 44 characters, one '=', which decode back to it |
| `Auth.SecretInputParts` | src/lamarzocco_auth.cpp:141-160 | the hashed secret input is the id, '.', the base64 public key, '.', and base64 of SHA-256 of the id; each part can be recovered |
| `Auth.SecretInputInjective` | src/lamarzocco_auth.cpp:141-160 | for single-byte ids without '.', the hashed bytes are equal exactly when the id and the public key are |
| `Auth.DeriveSecretDetermines` | src/lamarzocco_auth.cpp:141-160 | the meaning of `DeriveSecret` (`derive_secret_bytes`): equal derived secrets mean the same id and public key, or a SHA-256 collision between the hashed inputs |
| `Auth.XorBits` | src/lamarzocco_auth.cpp:188 | the xor of n bits is below 2^n |
| `Auth.XorBitsTwice` | src/lamarzocco_auth.cpp:188 | xor with a value twice cancels |
| `Auth.XorBitsZero` | src/lamarzocco_auth.cpp:188 | xor with 0 is the identity |
| `Auth.XorInvolutive` | src/lamarzocco_auth.cpp:188 | byte xor is an involution |
| `Auth.RotrRotl` | src/lamarzocco_auth.cpp:189 | rotating right undoes the 8-bit left rotation |
| `Auth.ProofStep` | src/lamarzocco_auth.cpp:182-191 | a byte b rewrites only `work[b%32]`, to rotl8(b xor work[b%32], work[(b%32+1)%32] & 7); a shift of 0 leaves the xor; the other 31 bytes stay |
| `Auth.UndoProofStep` | src/lamarzocco_auth.cpp:182-191 | each step can be undone |
| `Auth.ProofBufferUntouched` | src/lamarzocco_auth.cpp:175-191 | a byte of the buffer that no input byte addresses keeps the secret's value |
| `Auth.ProofBufferInjective` | src/lamarzocco_auth.cpp:175-191 | the same input over two different secrets gives two different buffers |
| `Auth.RequestProof` | src/lamarzocco_auth.cpp:193-201 | the proof is 44 characters ending in one '=' and decodes to SHA-256 of the final buffer |
| `Auth.GenerateRequestProof` | src/lamarzocco_auth.cpp:175-202 | the byte loop over a working copy of the secret computes the request proof |
| `Auth.BufferExtend` | src/lamarzocco_auth.cpp:182-191 | each loop pass applies one proof step |
| `Auth.Signature` | src/lamarzocco_auth.cpp:228-288 | "" exactly when a signing step fails (key parse, ECDSA context, MD info or setup, nonzero return, DER length outside (0, 80]); otherwise base64 of the DER signature |
| `Auth.ExtraHeaders` | src/lamarzocco_auth.cpp:204-289 | the id, a fresh UUID as nonce, `millis()` in decimal as timestamp, and the signature of id.nonce.timestamp followed by '.' and the proof |
| `Auth.SaveInstallationKey` | src/lamarzocco_auth.cpp:369-377 | stores the id, the 32-byte secret, both DER keys and their lengths, and returns true |
| `Auth.LoadInstallationKey` | src/lamarzocco_auth.cpp:379-420 | succeeds iff the id is non-empty, the secret is a 32-byte blob and each DER key is a non-empty blob that fits its buffer; the key is then what the store holds |
| `Auth.LoadAfterSave` | src/lamarzocco_auth.cpp:369-420 | loading after saving a well-formed key gives the key back |
| `Prefs.Preferences.PutString` | src/lamarzocco_auth.cpp:370 | `putString` replaces the entry |
| `Prefs.Preferences.PutBytes` | src/lamarzocco_auth.cpp:371-373 | `putBytes` replaces the entry, and stores nothing for an empty value |
| `Prefs.Preferences.PutUInt` | src/lamarzocco_auth.cpp:374-375 | `putUInt` replaces the entry |
| `Prefs.Preferences.GetString` | src/lamarzocco_auth.cpp:380 | `getString` gives the stored text or the default |
| `Prefs.Preferences.GetBytes` | src/lamarzocco_auth.cpp:391-413 | `getBytes` gives the stored blob when it fits the buffer, and nothing otherwise |
| `Client.SignedIn` | src/lamarzocco_client.cpp:77-118 | a sign-in succeeds only on HTTP 200 and then sets both tokens and `expires_at = now + expiresIn`; any other code keeps the token |
| `Client.Refreshed` | src/lamarzocco_client.cpp:120-165 | with no refresh token or a non-200 reply it falls back to sign-in; a refresh replaces the access token and expiry and the refresh token only if one came back |
| `Client.Renewed` | src/lamarzocco_client.cpp:167-189 | renewal iff the token is invalid or expires within 600 s; refresh when a refresh token exists and it has not expired, otherwise sign in; no renewal means success with the token unchanged |
| `Client.LaMarzoccoClient.constructor` | src/lamarzocco_client.cpp:9-12 | not initialised, empty credentials and token |
| `Client.LaMarzoccoClient.Init` | src/lamarzocco_client.cpp:17-30 | stores the credentials; initialised with the loaded key iff the key loads; otherwise state and key as before |
| `Client.LaMarzoccoClient.GetInstallationKey` | src/lamarzocco_client.cpp:32-38 | the key exactly when initialised |
| `Client.LaMarzoccoClient.SignIn` | src/lamarzocco_client.cpp:77-118 | the token update and result of `SignedIn`; nothing else changes |
| `Client.LaMarzoccoClient.RefreshToken` | src/lamarzocco_client.cpp:120-165 | the token update and result of `Refreshed`; nothing else changes |
| `Client.LaMarzoccoClient.GetAccessToken` | src/lamarzocco_client.cpp:167-189 | false with the token untouched when not initialised; otherwise `Renewed` |
| `Client.LaMarzoccoClient.RegisterClient` | src/lamarzocco_client.cpp:40-75 | nothing is sent without initialisation; the registration carries the id, the proof of the base string and the base64 public key; success iff the status is 200 or 201 |
| `Client.LaMarzoccoClient.ApiCall` | src/lamarzocco_client.cpp:201-247 | true iff the token is obtained, the method is GET/POST/PUT/DELETE and 200 <= code < 300; the token follows `Renewed` |
| `Stomp.Encode` | src/lamarzocco_websocket.cpp:43-73 | command, '\n', headers, a '\n' only when the headers lack a trailing one, '\n', body, one NUL; lengths and the placement of each part |
| `Stomp.Decode` | src/lamarzocco_websocket.cpp:75-145 | fails iff the text up to the first NUL has no "\n\n" |
| `Stomp.NulFrom` | src/lamarzocco_websocket.cpp:122-132 | the NUL search finds the end of the C string |
| `Stomp.BodyAtPrefix` | src/lamarzocco_websocket.cpp:117-142 | the body runs up to the first NUL, or to the end |
| `Stomp.HeadersAtPrefix` | src/lamarzocco_websocket.cpp:110-115 | the headers are the same read through the C string |
| `Stomp.FrameAtFields` | src/lamarzocco_websocket.cpp:75-145 | the fields are the trimmed command, the headers and the body after "\n\n" |
| `Stomp.FirstPair` | src/lamarzocco_websocket.cpp:87-92 | the search finds the first "\n\n" |
| `Stomp.FirstNewline` | src/lamarzocco_websocket.cpp:97-102 | the search finds the first '\n' |
| `Stomp.DecodeFields` | src/lamarzocco_websocket.cpp:75-145 | with the first newline and the first blank line known, the decoded frame has those fields |
| `Stomp.CPrefixNul` | src/lamarzocco_websocket.cpp:69-70 | a NUL-free text followed by NUL reads back as the text |
| `Stomp.HeadersEndAtBlankLine` | src/lamarzocco_websocket.cpp:87-92 | in an encoded frame with well-formed headers, the first "\n\n" is right after the headers |
| `Stomp.DecodeJoined` | src/lamarzocco_websocket.cpp:43-145 | an encoded frame decodes to its command line, headers and body fields |
| `Stomp.CommandField` | src/lamarzocco_websocket.cpp:104-106 | a command without surrounding whitespace survives the trim |
| `Stomp.HeadersField` | src/lamarzocco_websocket.cpp:110-115 | the decoded headers are the encoded ones minus their final '\n' |
| `Stomp.BodyField` | src/lamarzocco_websocket.cpp:117-142 | the decoded body is the encoded one |
| `Stomp.DecodeEncode` | src/lamarzocco_websocket.cpp:43-145 | round trip: a valid command, non-empty headers ending in '\n' with no blank line, and a NUL-free body decode to the command, the headers minus the final '\n', and the body |
| `Stomp.DecodeJoinedFields` | src/lamarzocco_websocket.cpp:43-145 | the round trip for the joined text |
| `Stomp.EmptyHeadersBody` | src/lamarzocco_websocket.cpp:43-145 | empty headers encode to "CMD\n\n\n" + body + NUL; that decodes with empty headers and the body after one extra '\n' |
| `Stomp.DecodeAfterCommand` | src/lamarzocco_websocket.cpp:75-145 | a command line followed by a blank line decodes with empty headers |
| `Stomp.HeaderBlock` | src/lamarzocco_websocket.cpp:190-193 | header lines joined by `+= line + "\n"` end in a newline |
| `Stomp.AppendHeaderLine` | src/lamarzocco_websocket.cpp:190-193 | appending a non-empty line keeps the block free of blank lines |
| `Stomp.HeaderBlockWellFormed` | src/lamarzocco_websocket.cpp:190-193 | a block of non-empty NUL-free lines has no NUL and no blank line |
| `Stomp.FrameOfLines` | src/lamarzocco_websocket.cpp:43-145 | a frame built from header lines decodes to its parts |
| `Channel.OnEvent` | src/lamarzocco_websocket.cpp:147-367 | an event never changes the cached token and only appends to the log |
| `Channel.OnText` | src/lamarzocco_websocket.cpp:221-336 | a text frame never changes the cached token and only appends to the log |
| `Channel.OnFrame` | src/lamarzocco_websocket.cpp:232-336 | a decoded frame never changes the cached token and only appends to the log |
| `Channel.AfterDisconnect` | src/lamarzocco_websocket.cpp:470-500 | after `disconnect`: not connected, empty subscription id and cached token |
| `Channel.Connecting` | src/lamarzocco_websocket.cpp:369-468 | `connect` succeeds iff the token is fetched, it is non-empty, the key is available and the signature is non-empty; a failed fetch changes nothing |
| `Channel.Cached` | src/lamarzocco_websocket.cpp:382-396 | caching the token, and disconnecting first when connected, only appends to the log |
| `Channel.OpenWith` | src/lamarzocco_websocket.cpp:400-467 | the transport opens iff the key is available and the signature is non-empty |
| `Channel.UuidIsUuidText` | src/lamarzocco_websocket.cpp:248 | a generated subscription id is 36 characters of hex digits and dashes, so never empty |
| `Channel.ConnectsOnlyOnConnectedFrame` | src/lamarzocco_websocket.cpp:244-283 | from disconnected, an event connects iff it is a STOMP CONNECTED frame: the only place `_connected` becomes true |
| `Channel.DropsOnLoss` | src/lamarzocco_websocket.cpp:153-165 | a transport disconnect (:163) or error (:345) clears `_connected` and changes nothing else |
| `Channel.IgnoredFrames` | src/lamarzocco_websocket.cpp:300-365 | a STOMP ERROR frame, an unknown command, a text that does not decode, and pong, ping, binary or other events leave the session unchanged |
| `Channel.OnEventSubscribed` | src/lamarzocco_websocket.cpp:147-367 | while connected, the subscription id is always a UUID |
| `Channel.UuidTextPlain` | src/lamarzocco_websocket.cpp:248-283 | a UUID contains no newline or NUL |
| `Channel.FixedCommands` | src/lamarzocco_websocket.cpp:195-485 | CONNECT, SUBSCRIBE, UNSUBSCRIBE and MESSAGE are single-line commands without NUL or surrounding white space, which the decoder gives back unchanged |
| `Channel.SubscribeLinesWellFormed` | src/lamarzocco_websocket.cpp:257-266 | the SUBSCRIBE header lines are well formed |
| `Channel.SubscribeFrameDecodes` | src/lamarzocco_websocket.cpp:257-268 | the SUBSCRIBE frame decodes to `destination:/ws/sn/<serial>/dashboard`, `ack:auto`, `id:<id>`, `content-length:0` |
| `Channel.SubscribesOnConnected` | src/lamarzocco_websocket.cpp:244-283 | a CONNECTED frame sends SUBSCRIBE, marks connected with the fresh id, and that frame decodes to its headers |
| `Channel.ConnectedFrameSubscribes` | src/lamarzocco_websocket.cpp:244-283 | a CONNECTED frame sends exactly one SUBSCRIBE and marks connected with the fresh id |
| `Channel.ConnectLinesWellFormed` | src/lamarzocco_websocket.cpp:190-193 | the CONNECT header lines are well formed |
| `Channel.FixedConnectLines` | src/lamarzocco_websocket.cpp:190-192 | the three fixed CONNECT lines are well formed |
| `Channel.ConnectFrameDecodes` | src/lamarzocco_websocket.cpp:190-195 | the CONNECT frame decodes to `host`, `accept-version:1.2,1.1,1.0`, `heart-beat:0,0`, `Authorization:Bearer <token>` |
| `Channel.ConnectOnTransportOpen` | src/lamarzocco_websocket.cpp:167-219 | on transport open: an empty cached token closes and sends nothing; otherwise one CONNECT, then a close if the send failed; the frame decodes to its headers |
| `Channel.TransportOpened` | src/lamarzocco_websocket.cpp:167-219 | on transport open: the log gains a close without a token, otherwise CONNECT and a close on a failed send; connection state unchanged |
| `Channel.MessageDecodes` | src/lamarzocco_websocket.cpp:288-299 | a MESSAGE frame decodes to its headers and body |
| `Channel.MessageDelivered` | src/lamarzocco_websocket.cpp:288-299 | a MESSAGE frame hands its body verbatim to the callback when one is set, and changes nothing else |
| `Channel.MessageFrameHandled` | src/lamarzocco_websocket.cpp:288-299 | any decoded MESSAGE delivers its body and changes nothing else |
| `Channel.UnsubscribeFrameDecodes` | src/lamarzocco_websocket.cpp:484-485 | the UNSUBSCRIBE frame decodes to `id:<id>` |
| `Channel.SingleHeaderLine` | src/lamarzocco_websocket.cpp:484 | a one-line header block minus its newline is the line |
| `Channel.UnsubscribeOnDisconnect` | src/lamarzocco_websocket.cpp:470-500 | disconnecting while connected sends UNSUBSCRIBE with the id, closes, and resets the reconnect interval |
| `Channel.UnsubscribeLogged` | src/lamarzocco_websocket.cpp:470-500 | the same for any non-empty subscription id |
| `Channel.DisconnectTwice` | src/lamarzocco_websocket.cpp:470-500 | a second disconnect sends nothing and changes no state |
| `Channel.ReconnectDropsToken` | src/lamarzocco_websocket.cpp:382-396 | `connect` while connected clears the freshly cached token, so the next transport open closes without CONNECT |
| `Channel.ConnectOpens` | src/lamarzocco_websocket.cpp:400-467 | a successful connect sets the upgrade headers, closes and opens; from disconnected it only caches the token and logs that |
| `Channel.WebSocket.constructor` | src/lamarzocco_websocket.cpp:10-16 | the active instance, disconnected, no token, reconnect interval 5000 |
| `Channel.WebSocket.IsConnected` | include/lamarzocco_websocket.h:19 | `_connected` |
| `Channel.WebSocket.SetMessageCallback` | src/lamarzocco_websocket.cpp:507-509 | records whether a callback is set |
| `Channel.WebSocket.HandleEvent` | src/lamarzocco_websocket.cpp:147-367 | ignores events when not the active instance; otherwise the `OnEvent` transition with a fresh UUID |
| `Channel.WebSocket.ReceiveFrame` | src/lamarzocco_websocket.cpp:232-336 | the `OnFrame` transition for a decoded text frame |
| `Channel.WebSocket.Disconnect` | src/lamarzocco_websocket.cpp:470-500 | the `AfterDisconnect` state |
| `Channel.WebSocket.Connect` | src/lamarzocco_websocket.cpp:369-468 | stores the serial, renews the client's token, and takes the result and state of `Connecting` |
| `Channel.WebSocket.ConnectFetched` | src/lamarzocco_websocket.cpp:382-467 | the part of `connect` after the token fetch |
| `Channel.WebSocket.CacheToken` | src/lamarzocco_websocket.cpp:382-396 | the `Cached` state |
| `Channel.WebSocket.OpenTransport` | src/lamarzocco_websocket.cpp:400-467 | the `OpenWith` result and log |
| `Channel.WebSocket.Release` | src/lamarzocco_websocket.cpp:18-30 | the destructor: no longer the active instance, and disconnected |
| `Machine.StartCoherent` | src/lamarzocco_machine.cpp:43-54 | the loop's initial values are coherent |
| `Machine.StepCoherent` | src/lamarzocco_machine.cpp:62-161 | each widget keeps the variables coherent |
| `Machine.ReduceCoherent` | src/lamarzocco_machine.cpp:57-161 | after the loop, brewing holds iff the status is "Brewing", a start time exists only while brewing, power is `status == "PoweredOn"`, and steam is `status ∉ {Off, StandBy}` |
| `Machine.ReduceKeepsMachine` | src/lamarzocco_machine.cpp:57-161 | without a machine-status widget the status, brewing flag and power state are unchanged |
| `Machine.StepKeepsMachine` | src/lamarzocco_machine.cpp:62-161 | only a machine-status widget touches those variables |
| `Machine.ReduceKeepsSteam` | src/lamarzocco_machine.cpp:57-161 | without a steam widget the steam state is unchanged |
| `Machine.LastMachineStatusWins` | src/lamarzocco_machine.cpp:66-98 | the last machine-status widget decides the status, power and brewing |
| `Machine.ReduceAppend` | src/lamarzocco_machine.cpp:62-161 | the loop over a concatenation continues from where the first part ended |
| `Machine.LevelText` | src/lamarzocco_machine.cpp:203-210 | "Level" plus a rest becomes a prefix of "L" and the rest, and any other level a prefix of itself; the length is that text's length capped at 15, so short texts are copied whole |
| `Machine.ParseErrorIgnored` | src/lamarzocco_machine.cpp:27-39 | a parse error changes nothing and calls nothing |
| `Machine.AlarmAndBrewingEveryMessage` | src/lamarzocco_machine.cpp:173-187 | every parsed message sets the water alarm (the `allarm` flag or a boiler reporting "NoWater") and updates the brewing display |
| `Machine.ActivityMarkedOnFlip` | src/lamarzocco_machine.cpp:163-171 | machine activity is marked on the first message with a machine status and afterwards iff brewing flips; the last state follows |
| `Machine.NoStatusNoBoilers` | src/lamarzocco_machine.cpp:189-238 | no machine status, no boiler update |
| `Machine.OffUpdatesBoth` | src/lamarzocco_machine.cpp:213-222 | Off or StandBy updates both boilers, a missing status as "Off" |
| `Machine.OnUpdatesPresent` | src/lamarzocco_machine.cpp:223-237 | otherwise a boiler is updated iff its widget gave a status |
| `Machine.StatesFollowStatus` | src/lamarzocco_machine.cpp:88-137 | the power and steam states follow present statuses and are kept otherwise |
| `Machine.ReconnectSpacing` | src/lamarzocco_machine.cpp:353-370 | with the unsigned distance, the next attempt is due exactly 30 s later, also across the counter's wrap |
| `Machine.LaMarzoccoMachine.constructor` | src/lamarzocco_machine.cpp:11-15 | both states off and the handler registered as the websocket callback |
| `Machine.LaMarzoccoMachine.HandleMessage` | src/lamarzocco_machine.cpp:17-260 | the state and calls of `Handled` |
| `Machine.LaMarzoccoMachine.ReduceWidgets` | src/lamarzocco_machine.cpp:57-161 | the widget loop computes the fold of `Step` |
| `Machine.LaMarzoccoMachine.SetPower` | src/lamarzocco_machine.cpp:262-286 | false without a serial and no call; otherwise POST `/things/<serial>/command/CoffeeMachineChangeMode` with "BrewingMode"/"StandBy"; the state changes only on success; `ok` exactly when the client is initialised, its token is renewed and the code is 2xx; the client token follows the renewal; the other state, `lastReconnect` and the client's key and credentials are kept |
| `Machine.LaMarzoccoMachine.TogglePower` | src/lamarzocco_machine.cpp:288-290 | `set_power(!state)` |
| `Machine.LaMarzoccoMachine.SetSteam` | src/lamarzocco_machine.cpp:292-317 | as `set_power`, with `CoffeeMachineSettingSteamBoilerEnabled`, boiler index 1 |
| `Machine.LaMarzoccoMachine.ToggleSteam` | src/lamarzocco_machine.cpp:319-329 | `set_steam(!state)` |
| `Machine.LaMarzoccoMachine.IsWebsocketConnected` | src/lamarzocco_machine.cpp:345-347 | the websocket's `_connected` |
| `Machine.LaMarzoccoMachine.ConnectWebsocket` | src/lamarzocco_machine.cpp:331-343 | true with nothing changed when connected; false without a serial; otherwise the websocket's `connect`, whose result and state are `Connecting` with the renewed client token and the kept key |
| `Machine.LaMarzoccoMachine.DisconnectWebsocket` | src/lamarzocco_machine.cpp:349-351 | the websocket's `disconnect` |
| `Machine.LaMarzoccoMachine.Loop` | src/lamarzocco_machine.cpp:353-370 | an attempt iff disconnected and `(uint32)(now − last) >= 30000`; the attempt moves `last` and, with a serial, leaves the websocket in `Connecting`'s state with the renewed client token and the kept key |
| `Boiler.Remaining` | src/boiler_display.cpp:376-397 | `(ready − now) / 1000` truncating toward zero; a value <= 0 exactly when less than a second is left |
| `Boiler.ArcValue` | src/boiler_display.cpp:431-433 | `remaining*100/300` clamped to [0, 100]: a third of the seconds up to 300, full above, empty at 2 or less |
| `Boiler.ArcMonotone` | src/boiler_display.cpp:431-433 | more remaining time never gives a smaller arc |
| `Boiler.QuotMonotone` | src/boiler_display.cpp:431-433 | truncating division is monotone |
| `Boiler.LabelText` | src/boiler_display.cpp:437-447 | "READY" at or below 0, "N sec" from 1 to 60 |
| `Boiler.LabelMinutes` | src/boiler_display.cpp:437-441 | above 60, "m min" with m the started minutes, `(m−1)*60 < r <= m*60` |
| `Boiler.TickAll` | src/boiler_display.cpp:305-330 | the callback's loop over the boilers, element by element |
| `Boiler.InitializedValid` | src/boiler_display.cpp:54-89 | `init` gives two consistent OFF boilers with the timer paused |
| `Boiler.RestartedValid` | src/boiler_display.cpp:609-657 | `restart_update_timer` pauses iff no boiler is active |
| `Boiler.ReadiedValid` | src/boiler_display.cpp:548-604 | entering READY keeps the display consistent |
| `Boiler.HeatingConsistent` | src/boiler_display.cpp:524-542 | entering HEATING shows the remaining time |
| `Boiler.UpdateBoilerValid` | src/boiler_display.cpp:157-258 | each branch of the update keeps the display consistent |
| `Boiler.UpdatedValid` | src/boiler_display.cpp:99-261 | `boiler_display_update` keeps the display consistent |
| `Boiler.TickBoilerConsistent` | src/boiler_display.cpp:305-330 | a tick keeps a boiler consistent and never turns it on or off |
| `Boiler.TickedValid` | src/boiler_display.cpp:296-360 | the timer callback keeps the display consistent |
| `Boiler.AllOffValid` | src/boiler_display.cpp:266-278 | `set_all_off` keeps the display consistent |
| `Boiler.UpdatePriority` | src/boiler_display.cpp:99-261 | no-op when uninitialised, no state change for type >= 2; otherwise machine Off/StandBy, then boiler Off/StandBy, then "Ready", then ready <= 0, then remaining <= 0, then HEATING with the new ready time; READY only when `set_boiler_ready`'s mutex is taken; the other boiler untouched |
| `Boiler.UpdateTargetLabel` | src/boiler_display.cpp:107-120 | the target label of boiler `ty` takes a non-empty target exactly when the label's own GUI mutex is taken, independently of `set_boiler_ready`'s; the other label is kept |
| `Boiler.UpdateBoilerPriority` | src/boiler_display.cpp:157-258 | the same priority for one boiler |
| `Boiler.ReadiedPriority` | src/boiler_display.cpp:592-604 | `set_boiler_ready` changes the state only when the mutex is taken |
| `Boiler.TickExpires` | src/boiler_display.cpp:305-330 | an expired HEATING boiler turns READY, a running one shows its remaining seconds, an OFF one is unchanged |
| `Boiler.TickTimer` | src/boiler_display.cpp:332-359 | still heating: the restart rule; otherwise READY present: period 5000, running; none active: paused |
| `Boiler.AllOffPauses` | src/boiler_display.cpp:266-278 | both boilers OFF and the timer paused |
| `Boiler.BoilerDisplay.constructor` | src/boiler_display.cpp:23-26 | two boilers, uninitialised, timer paused |
| `Boiler.BoilerDisplay.SetBoilerOff` | src/boiler_display.cpp:487-519 | OFF with ready time 0, last remaining −1, empty arc, "OFF", unconditionally |
| `Boiler.BoilerDisplay.UpdateArcAndLabel` | src/boiler_display.cpp:405-482 | stores the remaining seconds, arc value and label text |
| `Boiler.BoilerDisplay.SetBoilerHeating` | src/boiler_display.cpp:524-542 | HEATING with the ready time stored and the remaining time shown, unconditionally |
| `Boiler.BoilerDisplay.SetBoilerReadyNoMutex` | src/boiler_display.cpp:548-587 | READY, full arc, "READY", last remaining 0 |
| `Boiler.BoilerDisplay.SetBoilerReady` | src/boiler_display.cpp:592-604 | READY only when the mutex is taken, otherwise unchanged |
| `Boiler.BoilerDisplay.RestartUpdateTimer` | src/boiler_display.cpp:609-657 | period 1000 when some HEATING boiler has 0 < remaining < 60, otherwise 30000; running iff some boiler is not OFF |
| `Boiler.BoilerDisplay.ScanFast` | src/boiler_display.cpp:613-625 | the loop finds whether some boiler needs the fast period |
| `Boiler.BoilerDisplay.ScanActive` | src/boiler_display.cpp:640-646 | the loop finds whether some boiler is not OFF |
| `Boiler.BoilerDisplay.Update` | src/boiler_display.cpp:99-261 | the new state is `Updated` of the old, with the label's and `set_boiler_ready`'s mutex acquisitions as separate inputs |
| `Boiler.BoilerDisplay.UpdateOne` | src/boiler_display.cpp:157-258 | the new state is `UpdateBoiler` of the old |
| `Boiler.BoilerDisplay.ReadyTransition` | src/boiler_display.cpp:183-245 | the new state is `Readied` of the old |
| `Boiler.BoilerDisplay.TimerCallback` | src/boiler_display.cpp:296-360 | the new state is `Ticked` of the old |
| `Boiler.BoilerDisplay.TickBoilers` | src/boiler_display.cpp:302-330 | the loop ticks every boiler and reports whether one is still heating |
| `Boiler.BoilerDisplay.TickBoiler1` | src/boiler_display.cpp:306-329 | one boiler ticked, the other unchanged |
| `Boiler.BoilerDisplay.ScanReady` | src/boiler_display.cpp:334-340 | the loop finds whether some boiler is READY |
| `Boiler.BoilerDisplay.SetAllOff` | src/boiler_display.cpp:266-278 | the new state is `AllOff` of the old |
| `Boiler.BoilerDisplay.Init` | src/boiler_display.cpp:54-89 | the new state is `Initialized` of the old |
| `Brewing.FinalSecondsValue` | src/brewing_display.cpp:147-173 | final = max(0, (now − start)/1000) when start > 0, else 0 |
| `Brewing.IsActive` | src/brewing_display.cpp:560-562 | initialised and ACTIVE, so FLASHING is inactive |
| `Brewing.BootValid` | src/brewing_display.cpp:30-42 | the static initial state is consistent and uninitialised |
| `Brewing.InitializedValid` | src/brewing_display.cpp:68-111 | `init` gives a consistent IDLE display |
| `Brewing.UpdatedValid` | src/brewing_display.cpp:217-245 | `brewing_display_update` keeps the state consistent: paused iff IDLE, a start only in ACTIVE, a final value only in FLASHING |
| `Brewing.TickedValid` | src/brewing_display.cpp:250-317 | the timer callback keeps the state consistent |
| `Brewing.GpioCheckedValid` | src/brewing_display.cpp:570-646 | the GPIO check keeps the state consistent |
| `Brewing.UpdateGating` | src/brewing_display.cpp:217-245 | while the simulation runs, updates are ignored unless allowed; an accepted call clears the flag |
| `Brewing.StartKeepsFinal` | src/brewing_display.cpp:116-142 | start <= 0 uses now; in ACTIVE only the start time changes; otherwise final 0, "0.0" and a running timer |
| `Brewing.StopFlashes` | src/brewing_display.cpp:147-205 | a no-op in IDLE; otherwise FLASHING with the final seconds, start cleared and the flash restarted; a stop while FLASHING flashes 0 |
| `Brewing.FlashTick` | src/brewing_display.cpp:259-310 | after 3000 ms IDLE, final 0, paused and hidden; before it, visible iff `(elapsed/200) % 2 == 0` |
| `Brewing.FlashEndsOnTime` | src/brewing_display.cpp:259-310 | the flash ends exactly 3000 ms after it began, also across the wrap of `millis()` |
| `Brewing.UnsignedDistance` | src/brewing_display.cpp:262 | the `unsigned long` difference of `a + d` and `a` is `d` |
| `Brewing.ElapsedTextFormat` | src/brewing_display.cpp:325-356 | "S.T": digits, '.', one tenths digit, reading back to within 100 ms below the elapsed time |
| `Brewing.ElapsedNeedsStart` | src/brewing_display.cpp:325-356 | no start time, no update |
| `Brewing.FallingEdgeStarts` | src/brewing_display.cpp:579-594 | HIGH to LOW with the simulation off turns it on and starts brewing |
| `Brewing.RisingEdgeEnds` | src/brewing_display.cpp:595-630 | LOW to HIGH with the simulation on turns it off; FLASHING goes to IDLE, ACTIVE to FLASHING, IDLE stays |
| `Brewing.SteadyPin` | src/brewing_display.cpp:635-640 | an unchanged pin re-enters brewing while the simulation runs in IDLE, and does nothing without the simulation |
| `Brewing.BrewingDisplay.constructor` | src/brewing_display.cpp:30-42 | the static initial state |
| `Brewing.BrewingDisplay.Init` | src/brewing_display.cpp:68-111 | the new state is `Initialized` of the old |
| `Brewing.BrewingDisplay.ShowBrewingUi` | src/brewing_display.cpp:362-441 | shows the elements with "0.0" |
| `Brewing.BrewingDisplay.RestoreNormalUi` | src/brewing_display.cpp:465-546 | hides the brewing elements |
| `Brewing.BrewingDisplay.StartBrewing` | src/brewing_display.cpp:116-142 | the new state is `Started` of the old |
| `Brewing.BrewingDisplay.StopBrewing` | src/brewing_display.cpp:147-205 | the new state is `Stopped` of the old |
| `Brewing.BrewingDisplay.CaptureFinal` | src/brewing_display.cpp:155-165 | the final seconds of the current start |
| `Brewing.BrewingDisplay.Update` | src/brewing_display.cpp:217-245 | the new state is `Updated` of the old |
| `Brewing.BrewingDisplay.UpdateElapsedTimeDisplay` | src/brewing_display.cpp:325-356 | the new state is `Elapsed` of the old |
| `Brewing.BrewingDisplay.TimerCallback` | src/brewing_display.cpp:250-317 | the new state is `Ticked` of the old |
| `Brewing.BrewingDisplay.IsActiveNow` | src/brewing_display.cpp:560-562 | `brewing_display_is_active` |
| `Brewing.BrewingDisplay.CheckGpioSimulation` | src/brewing_display.cpp:570-646 | the new state is `GpioChecked` of the old |
| `Brewing.BrewingDisplay.OnPinEdge` | src/brewing_display.cpp:579-631 | the new state is `Edge` of the old |
| `Activity.IsInactive` | src/activity_monitor.cpp:39-48 | inactive iff initialised, the timeout is non-zero, `now >= last` and `now − last` reaches the timeout |
| `Activity.InactiveStays` | src/activity_monitor.cpp:39-48 | once inactive, later readings stay inactive until a mark |
| `Activity.ActiveAfterMark` | src/activity_monitor.cpp:39-48 | a mark keeps the monitor active for the whole timeout after it |
| `Activity.ActivityMonitor.constructor` | src/activity_monitor.cpp:3-9 | zero timeouts and stamps, not initialised |
| `Activity.ActivityMonitor.Init` | src/activity_monitor.cpp:11-19 | stores both timeouts, stamps both with the same now, initialised |
| `Activity.ActivityMonitor.MarkUser` | src/activity_monitor.cpp:21-28 | stamps the user; the first mark also stamps the machine and initialises; timeouts kept |
| `Activity.ActivityMonitor.MarkMachine` | src/activity_monitor.cpp:30-37 | the mirror image for the machine |
| `Activity.ActivityMonitor.IsUserInactive` | src/activity_monitor.cpp:50-53 | `is_inactive` over the user stamp and timeout |
| `Activity.ActivityMonitor.IsMachineInactive` | src/activity_monitor.cpp:55-58 | `is_inactive` over the machine stamp and timeout |

## Left out

- SHA-256, ECDSA signing, EC key generation, the random generator and DER
  export (mbedtls): the hash is a parameter, and signing is an outcome record.
  `generate_installation_key` is not part of this model.
- HTTP, TLS and the websocket transport: status codes, reply fields and send
  results are inputs. `_make_request` and the request and response bodies are
  left out. The websocket's own `loop()` only forwards to the library and is
  left out.
- JSON parsing and serialisation. A dashboard message is given as a list of
  widget records, or as a parse error. The machine's command-response listing
  only prints and is left out.
- Floats: the coffee target temperature arrives as its formatted text ("" for a
  temperature that is not positive).
- LVGL objects, flags, invalidation and timer objects; FreeRTOS mutexes. The
  model keeps the values shown (arc value, label texts, visibility of the brewing
  elements, timer period and pause flag). Two GUI-mutex acquisitions are
  boolean inputs: the target label in `boiler_display_update`
  (src/boiler_display.cpp:109) and `set_boiler_ready` (:600), each with its own
  boolean. Every other acquisition is assumed to succeed, so the writes under
  it always happen. That covers the arc value and label text of
  `update_arc_and_label` (:450-472, `Boiler.BoilerDisplay.UpdateArcAndLabel`)
  and of `set_boiler_off` (:495-517, `Boiler.BoilerDisplay.SetBoilerOff`). It
  also covers the brewing display's show, hide and text writes. The boiler
  invariant `Boiler.Consistent`, that a boiler's arc and label show its state and
  remaining time, depends on this assumption. In the source, a 100 ms time-out
  on one of those acquisitions leaves the arc and label showing the previous
  values.
- Clocks: `millis()`, the wall clock and the times of `localtime_r`/`strftime`
  debug output are parameters. Each operation reads the clock once.
- The `_instance` globals. The websocket keeps an "active instance" flag
  (`Release` clears it). The machine's handler assumes its instance, which the
  constructor sets and nothing clears.
- `water_alarm.cpp`: the handler records a `WaterAlarm` call. The calls into the
  boiler, brewing and activity modules are kept as a log of `Call` values and
  not chained to those classes.
- Logging: all Serial and debug printing.
- Strings are assumed free of embedded NUL where the source compares with
  `strcmp`. Arduino `String ==` is modelled as whole-string equality.
- `get_power_state` (header line 15), `activity_monitor_last_user_ms` and
  `activity_monitor_last_machine_ms` only return a field; they are read directly.
- Boiler.ArcValue: for `|remaining| > 2^31/100` the C multiplication overflows,
  which is undefined behaviour; the model wraps it, and the contract says
  nothing there.
- Boiler.LabelText: the contract covers up to a minute, and `LabelMinutes`
  states the minute text for `remaining < 2^31 − 59`, where `remaining + 59`
  cannot overflow.
- Brewing.ElapsedTextFormat: stated only for elapsed times whose seconds fit an
  `int`.
- Channel.OnEvent: its own contract says only that the token is kept and the log
  grows. Each transition is stated by a lemma beside it: `TransportOpened` and
  `ConnectOnTransportOpen` (transport open), `SubscribesOnConnected` (CONNECTED),
  `MessageFrameHandled` (MESSAGE), `DropsOnLoss` (disconnect and error) and
  `IgnoredFrames` (everything else).
- Auth.BytesOf: each `char` stands for one byte of the Arduino `String`, so only
  codes below 256 have a C counterpart; higher codes are reduced modulo 256.
  `SecretInputInjective` assumes inputs whose codes are all below 256.
- Client.LaMarzoccoClient.Init: when the key fails to load on a second call, the
  source may have partly overwritten its key. The model keeps the previous key.
- The subscription-id check in the CONNECTED branch is dead, because a generated
  UUID is never empty (`UuidIsUuidText`). The model has no such branch.
- The model's `HandleEvent` takes 16 random bytes for a UUID with every
  event. The source draws a UUID only for a CONNECTED frame
  (src/lamarzocco_websocket.cpp:248), and only that branch uses it.
- The machine header declares neither `_steam_state`, `set_steam` nor
  `toggle_steam`, although the `.cpp` defines them. The model follows the `.cpp`.
- The boiler header declares `boiler_display_update` with four parameters at
  include/boiler_display.h:56-57. The model follows the five-parameter definition
  in the `.cpp`.
