# redis-cli (Go) — a verified model of its deterministic core

`redis-cli.go` is a small interactive Redis client. It reads a line at a
prompt, splits it into tokens, records it in the line editor's history with
passwords masked, and dispatches on the first token. `help`, `quit`/`exit`,
`clear` and `mode` are handled locally. Every other line goes to the server,
and the reply is printed in standard or raw form. This project models the
parts of that loop that can be stated exactly, and proves properties of them:

- **Replies** (modules `Replies`, `Format`): the reply tree and both
  renderers, written as functions that return the whole text printed.
  - Standard mode tags scalars (`(integer) N`, `(nil)`, `(error) msg`) and
    quotes byte strings as `%q` does.
  - Standard mode numbers array elements `"i) "`, left-justified to width 4.
  - Both modes indent the elements after the first by `4*level` spaces, put
    one newline between elements and none after the last.
  - Raw mode prints scalars bare.
  - The proofs cover: the array layout as a join of per-element lines, the
    indentation of every continuation line, the shape of the number prefix,
    reading back each tagged scalar, and the round trips `%d` ↔ `strconv.Atoi`
    and `%q` ↔ unquoting.
- **Tokenizer** (module `Tokenizer`): `FindAllString` of the pattern
  `'.*?'|".*?"|\S+`, as a leftmost-first scanner.
  - A quoted span ends at the nearest matching quote before a newline, and the
    quotes stay in the token.
  - Otherwise a token is a maximal run of non-space characters.
- **History** (module `History`): `appendHistory`, which copies the tokens,
  masks the password of a 2-token `auth` or a 4-token `connect`, and joins the
  tokens with single spaces. The caller's tokens are an array that the method
  has no licence to modify.
- **Session** (module `Cli`): a `Session` class with the fields `mode`, `dbn`
  and `history`.
  - `SwitchMode`, `SendCommand` (after the server has answered) and one round
    of the read loop (`HandleLine`) change the session.
  - `addr()`, the prompt and the completer filter are pure functions.
  - The completer's loop is `Complete`, proved equal to the filter
    `Completions`.

What the model treats as a parameter or an abstraction:

- The server's answer is a parameter of type `Response`: `Ok(reply)` or
  `Failed(message)`.
- The completer's command table is a parameter: the sequence of command names
  in the first column of the help table.
- A reply type the renderer does not know is `Other(repr)`, where `repr`
  stands for the text `%+v` prints for it.
- Go's `int` is 64 bits wide on a 64-bit platform, which the model assumes.
  Integer replies and `dbn` are the newtype `int64`.
- `strconv.Atoi` is modelled with the value the client keeps when it drops
  the error:
  - an optional sign followed by decimal digits gives its value, clamped to
    the `int64` bounds when it is out of range;
  - digits after the sign whose value passes the `uint64` maximum give the
    `int64` bound of that sign, whatever follows them, because the parser
    stops at the overflow;
  - anything else gives 0.

## Model

| member | source | states |
|---|---|---|
| Replies.Render | redis-cli.go:234-244 | raw mode renders with the raw renderer; every other mode, including an unknown one, falls back to standard rendering |
| Replies.StdRender | redis-cli.go:246-275 | a standard array of n elements prints at least 5n-1 characters (a 4-character prefix and a newline per element but the last), and it prints nothing if and only if it has no elements |
| Replies.StdItems | redis-cli.go:259-271 | the element loop from element i prints at least 5 characters per remaining element but one, and prints nothing exactly when no element remains |
| Replies.StdArrayStartsWithNumber | redis-cli.go:258-271 | a non-empty standard array starts with the number prefix `1)  `, unindented at any level |
| Replies.StdScalarsReadBack | redis-cli.go:248-257 | an integer prints as `(integer) ` followed by text that `Atoi` reads back as that integer; bytes print as text that unquotes to the bytes; an error prints as `(error) ` followed by the message; nil prints as `(nil)`; a string prints verbatim |
| Replies.StdAnnotatedInjective | redis-cli.go:248-257 | two integer, byte, nil or error replies that print the same standard text are the same reply |
| Replies.StdItemsAreJoinedLines | redis-cli.go:259-271 | the element loop prints its per-element lines (indent, number prefix, child at `level+1`) joined by single newlines |
| Replies.StdArrayLayout | redis-cli.go:258-271 | a standard array prints as its element lines joined by `\n`; an empty array prints nothing; the text ends with the last element's rendering, so no newline trails it |
| Replies.NumberPrefixShape | redis-cli.go:264-265 | the prefix for i is at least 4 characters long, and exactly 4 when i < 100; it starts with the digits of i followed by `) `, is padded with spaces only, and its digits read back as i |
| Replies.StdIndentation | redis-cli.go:258-271 | when no string, error message or unknown-type text in a reply contains a newline, every newline of its standard text at `level` is followed by at least `4*level` spaces |
| Replies.StdItemsIndentation | redis-cli.go:259-271 | the same indentation holds for the text of the element loop, from any element to the end |
| Replies.RawRender | redis-cli.go:277-303 | a raw array of n elements prints at least n-1 characters |
| Replies.RawItems | redis-cli.go:290-299 | the raw element loop from element i prints at least one character per remaining element but one |
| Replies.RawScalarsReadBack | redis-cli.go:279-288 | in raw mode an integer prints as digits that `Atoi` reads back (only digits when it is not negative); bytes and strings print verbatim; nil prints nothing; an error prints as its message followed by `\n` |
| Replies.RawItemsAreJoinedLines | redis-cli.go:290-299 | the raw element loop prints indent plus child at `level+1` per element, joined by single newlines |
| Replies.RawArrayLayout | redis-cli.go:289-299 | a raw array prints as its element lines joined by `\n`, with no numbering; an empty array prints nothing; the text ends with the last element's rendering |
| Replies.RawIndentation | redis-cli.go:289-299 | when no string, byte payload or unknown-type text contains a newline and there is no error element, every newline of the raw text at `level` is followed by at least `4*level` spaces |
| Replies.RawItemsIndentation | redis-cli.go:290-299 | the same indentation holds for the raw element loop from any element to the end |
| ReplyExamples.StdNestedExample | redis-cli.go:246-275 | `[1, "two", [3, nil]]` prints in standard mode as the lines `1)  (integer) 1`, `2)  two`, and `3)  1)  (integer) 3` followed by `    2)  (nil)` |
| ReplyExamples.RawNestedExample | redis-cli.go:277-303 | the same reply prints in raw mode as the lines `1`, `two`, and `3` followed by a line of four spaces |
| Format.Decimal | redis-cli.go:249 | `%d` gives a non-empty text: digits for a non-negative number, otherwise `-` followed by digits; there is no leading zero, except in the text of 0 itself |
| Format.AtoiOfDecimal | redis-cli.go:157 | `Atoi` reads back every 64-bit integer from its decimal text |
| Format.DecimalInjective | redis-cli.go:249 | distinct integers print distinct digits |
| Format.Atoi | redis-cli.go:157 | digits after the optional sign whose value passes the `uint64` maximum give the `int64` bound of the sign; otherwise a text that is not an optional sign followed by one or more decimal digits parses as 0 (in particular any text without a digit); a decimal text parses as its signed value clamped to the `int64` range |
| Format.AtoiOverflowIgnoresRest | redis-cli.go:157 | digits whose value passes the `uint64` maximum, followed by a non-digit or by nothing, give MaxInt64 unsigned or with `+`, and MinInt64 with `-`, however the text goes on |
| Format.AtoiOverflowExample | redis-cli.go:157 | `99999999999999999999x` gives MaxInt64 and `-99999999999999999999x` gives MinInt64, not 0 |
| Format.AtoiClamps | redis-cli.go:157 | the decimal text of any integer, however large, parses as that integer clamped to the `int64` range |
| Format.AtoiPlusSign | redis-cli.go:157 | a leading `+` is accepted and does not change the value |
| Format.AtoiSyntaxErrors | redis-cli.go:157 | `1x`, `--1`, ` 1`, `+`, `1_0` and the empty text are syntax errors and parse as 0 |
| Format.Quote | redis-cli.go:253 | `%q` gives a text that starts and ends with `"` and contains no newline |
| Format.EscapeChar | redis-cli.go:253 | every character escapes to a non-empty text without a newline |
| Format.QuoteRoundTrip | redis-cli.go:253 | unquoting the `%q` text of any string gives the string back |
| Format.QuoteInjective | redis-cli.go:253 | distinct byte strings are quoted differently |
| Tokenizer.FindClose | redis-cli.go:80 | the closing quote found is the first occurrence of that quote, with no newline before it; when none is found, every occurrence of the quote comes after a newline |
| Tokenizer.WordLength | redis-cli.go:80 | `\S+` matches a maximal run: non-space characters only, stopping at a space or at the end of the line |
| Tokenizer.MatchLength | redis-cli.go:80 | a quote that closes on the same line yields a quoted span up to the nearest matching quote; anything else yields the maximal non-space run |
| Tokenizer.Tokens | redis-cli.go:103 | every token is a quoted span or a non-empty run of non-space characters |
| Tokenizer.NoTokensIffBlank | redis-cli.go:103-105 | a line yields no tokens if and only if all of it is whitespace, in which case nothing is dispatched |
| Tokenizer.TokensAreSubsequence | redis-cli.go:103 | the tokens, concatenated, are a subsequence of the line |
| Tokenizer.TokensKeepNonSpace | redis-cli.go:103 | the tokens contain exactly the line's non-whitespace characters, in order |
| Tokenizer.TokensOfJoin | redis-cli.go:103 | plain words (no whitespace, no leading quote) joined by single spaces tokenize back to the same words |
| Tokenizer.QuotedArgumentExample | redis-cli.go:80 | `SET key "hello world"` yields `SET`, `key` and `"hello world"`, with the quotes kept |
| History.Masked | redis-cli.go:132-138 | masking keeps the number of tokens and the command name; every token is kept except possibly the last, which can only become `******` |
| History.HistoryLine | redis-cli.go:139 | the entry of a blank token list is empty; otherwise it starts with the command name as typed and ends with the last masked token |
| History.AppendHistory | redis-cli.go:125-139 | given the caller's tokens in an array it may not modify, the method copies them in a loop, masks the copy, and returns the masked tokens joined by spaces |
| History.AppendTokens | redis-cli.go:107 | the entry recorded for a line's token slice is the masked join of its tokens |
| History.MaskedShape | redis-cli.go:132-138 | a token changes only on a 2-token `auth` or 4-token `connect` line, and on such a line the last token always becomes `******` |
| History.MaskIdempotent | redis-cli.go:133-138 | masking a masked line changes nothing |
| History.AuthIsMasked | redis-cli.go:133-135 | a 2-token line whose first token is `auth` in any case is recorded as that token followed by ` ******` |
| History.ConnectIsMasked | redis-cli.go:136-138 | a 4-token `connect` line, in any case, keeps its first three tokens and records `******` in place of the fourth |
| History.OtherLinesVerbatim | redis-cli.go:139 | every other line is recorded as its tokens joined by single spaces |
| History.AclAuthNotMasked | redis-cli.go:133 | a 3-token `auth <user> <password>` line is recorded as its three tokens joined by spaces, so the entry ends with the password in the clear |
| History.HistoryLineRetokenizes | redis-cli.go:139 | tokenizing a recorded line of plain words gives the masked tokens back |
| Cli.AddrOf | redis-cli.go:210-218 | a non-empty socket path is the address; otherwise the address is the host name, a colon right after it, then the port |
| Cli.AddrRoundTrip | redis-cli.go:210-218 | without a socket, splitting the address at its first colon gives back the host and the port, provided the host has no colon |
| Cli.PromptFor | redis-cli.go:91-95 | every prompt starts with the address and ends with `> ` |
| Cli.PromptShape | redis-cli.go:91-95 | the prompt differs from `addr> ` if and only if dbn is in 1..15, and the digits between `[` and `]> ` then read back as dbn |
| Cli.Classify | redis-cli.go:109-120 | the lower-cased first token selects help exactly for `help` or `?`, quit exactly for `quit` or `exit`, the clear hint exactly for `clear`, the mode switch exactly for `mode`; everything else goes to the server |
| Cli.ClassifyIgnoresCase | redis-cli.go:109-120 | the command's dispatch is the same for the token in upper or lower case |
| Cli.ModeArg | redis-cli.go:188-205 | a selected mode is always std or raw, and it is only ever selected by exactly one argument |
| Cli.ModeArgCases | redis-cli.go:188-199 | a mode is selected exactly for one argument equal to `raw` or `std`, ignoring case, and it is raw and std respectively; any other count or value selects none |
| Cli.ModeArgIgnoresCase | redis-cli.go:194 | upper-casing the argument selects the same mode |
| Cli.InfoText | redis-cli.go:224-232 | `printInfo` prints a byte reply verbatim and an error reply as `(error) ` followed by its message; any other reply prints nothing |
| Cli.SendResult | redis-cli.go:142-172 | the send panics exactly on a successful `select` with no argument; otherwise the status is 0 or -1, and -1 exactly when the server failed a non-empty command; the output of a non-empty command ends with a newline |
| Cli.NextDbn | redis-cli.go:156-158 | a successful `select` with an argument always sets dbn to that argument's `Atoi` value, and nothing else changes dbn |
| Cli.SelectOfNonNumberIsZero | redis-cli.go:157 | a successful `select` whose argument is not a number (and does not overflow) sets dbn to 0, whatever it was |
| Cli.SelectAbcExample | redis-cli.go:157 | `select abc` answered by the server moves from database 3 to database 0 |
| Cli.SelectSetsDbn | redis-cli.go:156-158 | after a successful `select` of a decimal k, dbn is k, and the reply is printed followed by a newline with status 0 |
| Cli.SelectShowsInPrompt | redis-cli.go:156-158 | after a successful `select k`, the next prompt shows `[k]` exactly when k is in 1..15 |
| Cli.SendOutcomes | redis-cli.go:156-171 | a failed command prints `(error) msg` and a newline with status -1, and keeps dbn; a command other than `select` keeps dbn; a successful command other than `select`/`info` prints its reply in the current mode and a newline |
| Cli.Session.constructor | redis-cli.go:48-52 | the session starts in raw mode if and only if the raw flag is set, and otherwise in standard mode, with an empty history |
| Cli.Session.SwitchMode | redis-cli.go:188-208 | the mode is set when the arguments select one and nothing is printed; otherwise the mode is unchanged and the usage line is printed; dbn and history are unchanged; a session whose mode is std or raw keeps it so |
| Cli.Session.SendCommand | redis-cli.go:142-172 | the output is the send result for the tokens, the answer and the current mode, including the panic of a successful `select` with no argument; dbn becomes the next dbn; mode and history are unchanged; the mode stays std or raw |
| Cli.Session.Dispatch | redis-cli.go:109-120 | on the first token's class: help shows help, quit quits, clear prints the hint, mode switches the mode or prints the usage, anything else is sent to the server and updates dbn; only the mode command changes the mode, and the history is unchanged |
| Cli.Session.HandleLine | redis-cli.go:103-121 | a blank line changes nothing; any other line appends its masked history entry; the step then dispatches on the first token to help, quit, the clear hint, a mode switch or the server, and only the mode command changes the mode and only a server command changes dbn |
| Cli.Completions | redis-cli.go:346-353 | a name is offered if and only if it is in the table and starts with the upper-cased input; there are at most as many candidates as names |
| Cli.CompletionsInOrder | redis-cli.go:347-350 | the candidates appear in table order |
| Cli.CompletionsOfEmptyInput | redis-cli.go:348 | an empty input completes to the whole table |
| Cli.CompletionsIgnoreCase | redis-cli.go:348 | lower-casing the input does not change the candidates |
| Cli.Complete | redis-cli.go:346-353 | the completer's loop returns exactly the filtered candidates |
| Strings.PadRight | redis-cli.go:265 | `%-4s` keeps the text, never truncates it, and pads it with spaces on the right to the given width |
| Strings.JoinStartsWithFirst | redis-cli.go:139 | a join starts with its first part |
| Strings.JoinEndsWithLast | redis-cli.go:139 | a join ends with its last part, so no separator trails it |

## Left out

- The network client (`client.Do`, `redis.NewClient`, `sendPing`, the connection in `cliConnect`): foreign library and network I/O. The server's answer is the `Response` parameter of `Session.SendCommand` and `Session.HandleLine`.
- The request `cliSendCommand` sends: redis-cli.go:145-155 only ever sends the lower-cased first token and an empty argument. The model does not describe the request at all, because it depends only on the network client.
- The line editor (`liner`: `Prompt`, `SetCompleter`, `AppendHistory`, `ReadHistory`/`WriteHistory`) and the history file in `loadHistory`/`saveHistory`: terminal and file I/O. `Session.history` holds the entries handed to the line editor's `AppendHistory`; what the editor loads from the history file is not modelled.
- The endless `for` loop of `repl`, and the exit on a prompt error (Ctrl-C or end of input): `Session.HandleLine` is one round of the loop after the prompt returned a line.
- `printHelp`, `printGenericHelp`, `printCommandHelp`, `showWelcomeMsg` and the `helpCommands` table, which is not defined in redis-cli.go: the help command ends a round as `Step.ShowHelp`, and the completer takes the table's names as a parameter.
- `os.Exit`, `main`'s choice between the interactive and non-interactive paths, `noninteractive`, flag and environment parsing (`flag.*`, `getEnv`): process control and the environment. The flag values are the arguments of the `Session` constructor.
- `quit`/`exit` leave through `os.Exit(0)` (redis-cli.go:113), which skips the deferred `saveHistory` (redis-cli.go:78); the model ends the round as `Step.Quit` and says nothing about the history file.
- The type of the `info` reply: a reply to `info` that is neither a byte string nor an error, a plain `string` included, prints nothing, as `printInfo` does; which Go type the client library returns for the `info` bulk reply is not part of this model.
- Standard error versus standard output: the clear hint goes to standard error in the source; the model only returns its text.
- Format.Quote: characters at or above U+0080 pass through unchanged, whereas `strconv.Quote` escapes non-printable runes and invalid UTF-8. Characters below U+0080 are escaped exactly as Go escapes them.
- Strings.ToLower: ASCII letters only; Go also maps non-ASCII letters. The same holds for Strings.ToUpper.
- Replies.Render: the default `%+v` text of an unknown reply type is carried as an opaque string (`Other(repr)`), and the message of an error reply as the string `%v` prints for it.
