# Verified model of the Creeper URL-shortening web server

A Dafny model of the parts of the server whose behaviour spans more than one
function, with proofs about it. `dafny verify dfyconfig.toml` checks the whole
project.

| file | what it models |
|---|---|
| `ConfigLexer.dfy` | the five-state lexer over a stream with one character of unget |
| `ConfigGrammar.dfy` | the configuration grammar and the parser's transition machine |
| `ConfigPrinter.dfy` | the printer; round trips; concatenation of texts |
| `ConfigParser.dfy` | parser and printer on objects: the tree built in place through a stack of references |
| `ConfigReading.dfy` | lexer, parser and printer in characters: what separates tokens, what is accepted, how a tree is laid out |
| `Dispatcher.dfy` | location validation, the route table, longest-prefix dispatch |
| `Base62.dfy` | the six-character short code and its arithmetic |
| `Shortener.dfy` | POST and GET of the shortener as atomic requests, and runs of them |
| `ShortenerAnswers.dfy` | the shortener's answers field by field, for the codes of the hash |
| `ShortenerThreads.dfy` | the same requests cut into interleaved steps of many threads |
| `ShortenerLinear.dfy` | interleaved requests explained by atomic ones |
| `Decimal.dfy` | `std::to_string` and `std::stoi` |
| `EntityStorage.dfy` | the map store, the file store and the simulation between them |
| `EntityThreads.dfy` | the file store used by several threads, its id search and its write apart |
| `Crud.dfy` | the CRUD handler over the file store, and runs of its requests |
| `CrudAnswers.dfy` | the CRUD handler in characters and fields: URIs, content type, ids, listings, errors |
| `ConnectionPool.dfy` | the mutex and condition-variable pool, one step a stretch under the mutex |
| `PoolSystem.dfy` | many threads on the two pools: safety, progress, bounded runs |
| `PostgresClient.dfy` | `store` and `lookup` as acquire-use-release brackets |
| `LineReader.dfy` | a client's reading of lines, strict or lenient about line ends |
| `Http.dfy` | the text of a response: what a reader makes of it, and its unique framing |

Conventions. Objects the code updates in place are classes; what their methods do
is stated by a function or a step predicate on values, and the properties are
lemmas about those. What these functions mean is stated once more without them, in
characters, fields and literal texts, mainly in `ConfigReading`, `ShortenerAnswers`
and `CrudAnswers`. A parameter stands for what the code asks the outside world:
`works` is the database's answer to a store, `opens` whether a file to write
opens, `polls` what libpq delivers, `page` the HTML file, `hash` the
uninterpreted 64-bit `std::hash`, a `Codec` the JSON library, a `Registry` the
handlers' argument readers.

Undefined behaviour is an outcome of its own. The parser's unchecked `pop` leaves
an empty stack, and using its top is `Undefined` (`EmptyStackUsed` for the
method); a dispatch without a match dereferences a null pointer, which is
`NoRoute`.

Where comments and code disagree, the model follows the code:

- `src/real_entity_storage.cc:49-50` speaks of the lowest unused id; the code
  gives one above the largest (`NextIdIsFresh`).
- `src/config_parser.cc:234-235` says what may follow a quoted token; nothing is
  enforced, and the word after it starts at once.
- `src/shorten_request_handler.cc:276` speaks of padding with leading zeros; the
  digits are least significant first, so each zero multiplies the value by 62
  (`ValueOfEncode`).
- `include/idatabase_client.h:18` says no value means not found; the real client
  also returns it on an error, which can make a POST overwrite another URL's
  entry (`FailedLookupOverwrites`).

Where a property fails, the exact condition under which it holds is proved, and the
failure is shown on an input:

- Interleaved requests break what atomic ones guarantee. If and only if the posted
  URLs differ in their first candidates, distinct URLs get distinct codes
  (`DistinctAnswersExactly`), an answered code stays in the table for its URL and
  redirects nowhere else (`AnswersLastExactly`, `RedirectsAgreeExactly`), and every
  run is explained by some order of atomic requests (`LinearizableExactly`);
  `RaceConfuses` and `RaceMisleads` are the failing runs.
- Failing lookups break even one thread's runs, under the same condition
  (`OneThreadExactly`, `FailedLookupOverwrites`); without them one thread's runs are
  always atomic (`SequentialIsAtomic`).
- Two threads that create entities can get one id. No creation replaces an entity if
  and only if no resource has two writing threads (`OneWriterExactly`,
  `RaceReplaces`).
- An exception in a Redis call skips `release`. Runs with at most `k` exceptions are
  free of deadlock if and only if `k` is less than the Redis pool and the database
  pool is not empty (`DeadlockFreeExactly`); `ThrowDeadlocks` is the smallest failure.
- The unchecked pop: `UndefinedExactly` and `ExtraBracesAreUndefined`.
- Concatenated configuration texts: `ConcatenationExactly`, `TrailingWordIsDropped`
  and `DroppedWordComesBack`.
- Code collisions: `EncodeCollision` and `OneCollides`.
- A stored URL is a raw request body and becomes a header. Every GET is answered by a
  text that is read as it is meant if and only if no posted URL has inside it what
  the reader takes for a line end: CR LF for a strict reader, a CR or an LF for a
  lenient one (`GetsAreReadExactly`). `LineEndSplitsHeader` is the failing run, and
  `LoneMarksMisleadLenient` tells the two readers apart.

## Model

| member | source | states |
|---|---|---|
| ConfigLexer.ParseToken | src/config_parser.cc:191-272 | the character machine reports the next lexeme of what is left of the stream, and leaves the stream right behind it |
| ConfigLexer.MachineLexes | src/config_parser.cc:191-272 | reading character by character from the initial state equals the longest-run reading: skip blanks, then take all the first character allows |
| ConfigLexer.MachineReadsRest | src/config_parser.cc:233-271 | the same from inside a word, a comment or a quoted string, with the drop or the error at the end of the text |
| ConfigLexer.Lex | src/config_parser.cc:191-272 | a completed token uses up at least one character net of the unget |
| ConfigLexer.TokensTerminate | src/config_parser.cc:274-288 | at most length + 1 token calls on any text, and only the last reports the end or an error |
| ConfigLexer.LexReadsToken | src/config_parser.cc:233-260 | every word and every complete quoted string followed by a delimiter is read back as written |
| ConfigLexer.LexedIsLexable | src/config_parser.cc:212-260 | every reported word is such a word or quoted string |
| ConfigLexer.LexExtends | src/config_parser.cc:191-262 | a token completed within a text does not depend on what follows the text |
| ConfigGrammar.StepReads | src/config_parser.cc:274-360 | each transition appends exactly the token it read to the derivation the stack stands for; comments change nothing |
| ConfigGrammar.StepKeepsValid | src/config_parser.cc:295-360 | stacked blocks hold complete statements, and a statement is unfinished exactly after a word |
| ConfigGrammar.DepthCountsBraces | src/config_parser.cc:326-338 | the stack depth is one more than the braces opened less those closed |
| ConfigGrammar.ParserAcceptsGrammar | src/config_parser.cc:274-366 | a text is accepted with a tree exactly when its tokens without comments are the derivation of that non-empty tree from the grammar |
| ConfigGrammar.GrammarIsUnambiguous | src/config_parser.cc:295-338 | a token stream derives from at most one tree |
| ConfigGrammar.UndefinedExactly | src/config_parser.cc:329-338 | the empty stack's top is used exactly when complete statements are followed by one closing brace too many and then a word or another closing brace |
| ConfigGrammar.ParsingAppends | src/config_parser.cc:295-306 | parsing into a configuration that has statements appends the parsed ones, with the same outcome |
| ConfigParser.Parse | src/config_parser.cc:274-366 | the loop over a stack of references gives the machine's outcome, and on success the objects represent the machine's tree |
| ConfigParser.AddToken | src/config_parser.cc:295-306 | a word starts or extends the last statement of the top block; every stacked block stays the child of the last statement beneath it |
| ConfigParser.OpenBlock | src/config_parser.cc:319-328 | a brace gives the last statement a new child block and stacks it |
| ConfigParser.FinishBlock | src/config_parser.cc:329-338 | popping a block leaves it, finished, as the child of the last statement of the block now on top |
| ConfigParser.NginxConfig.ToString | src/config_parser.cc:27-33 | the printed block of the represented tree |
| ConfigParser.NginxConfigStatement.ToString | src/config_parser.cc:141-164 | the printed statement of the represented tree |
| ConfigPrinter.TokensOfBlock | src/config_parser.cc:27-33 | lexing printed statements followed by any text gives their derivation and then the tokens of that text |
| ConfigPrinter.TokensOfStmt | src/config_parser.cc:141-164 | the same for one statement at any indentation |
| ConfigPrinter.PrintThenParse | src/config_parser.cc:141-366 | parsing the print of a printable non-empty tree, at any depth, rebuilds exactly that tree |
| ConfigPrinter.AcceptedIsPrintable | src/config_parser.cc:191-366 | the tree of an accepted text is printable and not empty |
| ConfigPrinter.ParsePrintParse | src/config_parser.cc:27-33 | parsing, printing and parsing again is parsing |
| ConfigPrinter.NewlineConcatenationParses | src/config_parser.cc:191-366 | accepted texts, the first ending in a newline, concatenate to the concatenated statements |
| ConfigPrinter.ConcatenationExactly | src/config_parser.cc:264-271 | an accepted text concatenates so with every accepted text if and only if no word or comment was cut off at its end |
| ConfigPrinter.ExtraBracesAreUndefined | src/config_parser.cc:329-338 | `a;}}` is such a text: its second brace uses the empty stack's top |
| ConfigPrinter.TrailingWordIsDropped | src/config_parser.cc:264-271 | `a; b` is accepted as the statement `a`, and does not end clean |
| ConfigPrinter.DroppedWordComesBack | src/config_parser.cc:264-271 | with `x;` behind it, the word comes back as the statement `bx` |
| ConfigReading.LayoutIsSkipped | src/config_parser.cc:212-229 | spaces, tabs, newlines and carriage returns before a text change none of its tokens |
| ConfigReading.WordIsRead | src/config_parser.cc:252-260 | a word, a carriage return inside it included, is read whole up to a space, tab, newline, `;`, `{` or `}` |
| ConfigReading.WordsAreSeparated | src/config_parser.cc:191-272 | two words with any such gap between them are two tokens |
| ConfigReading.MarksAreRead | src/config_parser.cc:197-228 | `;`, `{` and `}` are tokens by themselves, and the end of the text is one |
| ConfigReading.QuotedIsRead | src/config_parser.cc:233-245 | a text between two quotes of one kind is one token with its quotes, whatever follows |
| ConfigReading.UnclosedIsError | src/config_parser.cc:264-271 | a quote that is not closed is an error |
| ConfigReading.CommentIsRead | src/config_parser.cc:246-251 | a comment ends at a newline or a carriage return |
| ConfigReading.CutOffIsDropped | src/config_parser.cc:264-271 | a word or a comment at the end of the text is dropped |
| ConfigReading.StatementIsParsed | src/config_parser.cc:274-366 | two words with a gap and a `;` parse to the statement of the two |
| ConfigReading.BlocksAreParsed | src/config_parser.cc:319-338 | a block with a statement inside, and an empty one, are accepted with their trees |
| ConfigReading.NothingIsRejected | src/config_parser.cc:340-351 | the empty text and a lone mark are rejected |
| ConfigReading.UnfinishedIsRejected | src/config_parser.cc:319-351 | an open block, and a word before a closing brace, are rejected |
| ConfigReading.OverclosedIsRejected | src/config_parser.cc:340-351 | a closing brace too many at the end is rejected |
| ConfigReading.IndentIs | src/config_parser.cc:141-164 | two spaces a level |
| ConfigReading.LineIs | src/config_parser.cc:141-164 | one space between tokens |
| ConfigReading.PrintIs | src/config_parser.cc:141-164 | a statement ends in `;` and a newline, a block opens behind a space, indents its statements and closes on a line of its own |
| ConfigReading.PrintedTree | src/config_parser.cc:27-33 | the text of a tree with a nested empty block |
| Dispatcher.GetLocations | src/config_parser.cc:63-139 | valid exactly when every statement is acceptable by itself and no path occurs twice; then the locations in order |
| Dispatcher.ValidMeans | src/config_parser.cc:63-139 | in tokens and characters: each `location` statement has a path and a handler that is known and takes it, the path starts with a slash and ends in one only if it is `/`, and no two are equal |
| Dispatcher.PathsRefused | src/config_parser.cc:73-98 | a quoted path, one with a slash behind it and one without a slash in front are refused |
| Dispatcher.LocationsFollowStatements | src/config_parser.cc:63-139 | the locations come in the order of their statements |
| Dispatcher.RouteTableMeans | src/request_handler_dispatcher.cc:21-58 | each path leads to the handler and the arguments of its statement |
| Dispatcher.RequestHandlerDispatcher.AddRoutes | src/request_handler_dispatcher.cc:21-36 | false exactly on invalid locations; otherwise the routes are those of the location statements, no more and no fewer |
| Dispatcher.RequestHandlerDispatcher.AddRoute | src/request_handler_dispatcher.cc:38-58 | the first route for a path is kept |
| Dispatcher.RequestHandlerDispatcher.LongestPrefixMatch | src/request_handler_dispatcher.cc:76-93 | the search in any iteration order finds the longest prefix of the URL among the keys |
| Dispatcher.RequestHandlerDispatcher.GetHandler | src/request_handler_dispatcher.cc:60-74 | the dispatched route; without a match a null entry is left behind and used |
| Dispatcher.LongestIsUnique | src/request_handler_dispatcher.cc:76-93 | there is only one longest prefix |
| Dispatcher.DispatchMeans | src/request_handler_dispatcher.cc:60-93 | a request gets a location's route exactly when its path is the longest that is a prefix of the URL, and none exactly when no path is |
| Dispatcher.PermutedValid | src/config_parser.cc:63-139 | reordering the statements does not change validity |
| Dispatcher.DispatchIsOrderFree | src/request_handler_dispatcher.cc:21-93 | reordering them changes neither the routes nor where any request goes |
| Dispatcher.RootCatchesAll | src/request_handler_dispatcher.cc:60-93 | with a location for `/`, every URI starting with a slash has a route |
| Dispatcher.ParsedHasNoEmptyTokens | src/config_parser.cc:73-91 | a parsed configuration meets the non-empty paths that validation reads |
| Base62.Base62Encode | src/shorten_request_handler.cc:264-284 | the digit, pad and cut loops compute the code |
| Base62.ValueOfEncode | src/shorten_request_handler.cc:264-284 | the code's little-endian value is `n * 62^(6-d)` for `d <= 6` digits and `n mod 62^6` for more |
| Base62.SmallCodes | src/shorten_request_handler.cc:264-284 | the codes of zero and of each number of one digit |
| Base62.EncodeCollision | src/shorten_request_handler.cc:264-284 | two numbers share a code exactly when those values agree |
| Base62.OneCollides | src/shorten_request_handler.cc:275-279 | 1 and 62 share a code |
| Base62.SmallCollision | src/shorten_request_handler.cc:275-279 | positive numbers of at most six digits collide exactly when one is the other times a power of 62 |
| Base62.LargeCollision | src/shorten_request_handler.cc:280-281 | numbers of at least six digits collide exactly when they agree modulo `62^6` |
| Base62.DigitCount | src/shorten_request_handler.cc:270-273 | a number has at most `k` digits exactly when it is below `62^k` |
| Base62.HashHasFewDigits | src/shorten_request_handler.cc:267-273 | the digit loop turns at most 11 times on a 64-bit hash |
| Base62.Alphabet | include/shorten_request_handler.h:30-31 | each digit's character in the alphabet, from which the digit is read back |
| Shortener.ShortenRequestHandler.HandlePostRequest | src/shorten_request_handler.cc:136-188 | the probing loop acts at the first attempt whose candidate is free or the URL's own, and only there |
| Shortener.ShortenRequestHandler.HandleGetRequest | src/shorten_request_handler.cc:191-262 | stores and response of the read-through lookup |
| Shortener.ShortenRequestHandler.HandleRequest | src/shorten_request_handler.cc:122-133 | POST, GET, and 405 for the rest |
| ShortenerAnswers.PostAnswersCode | src/shorten_request_handler.cc:136-178 | when the codes of the URL, of the URL with `#1` behind it and so on hold other URLs up to an attempt, that attempt's code is stored if free and answered 200, the URL's own is answered, and a refused store is a 500, each response in all its fields |
| ShortenerAnswers.PostExhausts | src/shorten_request_handler.cc:181-187 | when all five hold other URLs the answer is the other 500, and nothing is stored |
| ShortenerAnswers.TwoPostsAnswered | src/shorten_request_handler.cc:136-178 | on empty stores two URLs whose hashes have different code values are each answered the code of its own hash |
| ShortenerAnswers.GetAnswersPage | src/shorten_request_handler.cc:191-215 | the base is answered with the page, or 404 without one |
| ShortenerAnswers.GetAnswersCode | src/shorten_request_handler.cc:217-262 | any other URI is redirected, with the table's URL as its only header, and cached if it is a six-character code of the table; else it is 404 and nothing changes |
| Shortener.DatabaseClient.Store | include/idatabase_client.h:14-16 | upsert; a failed store changes nothing |
| Shortener.RunGrows | src/shorten_request_handler.cc:136-262 | over every run no table entry is ever overwritten or removed |
| Shortener.RunSound | src/shorten_request_handler.cc:136-262 | over every run with failures and evictions, each entry is on its URL's probe chain and the cache is part of the table |
| Shortener.ReachableIsSound | src/shorten_request_handler.cc:136-262 | so from empty stores, where every entry holds a URL that was posted |
| Shortener.OneCodePerUrl | src/shorten_request_handler.cc:151-181 | each URL sits under at most one code |
| Shortener.PostThenGet | src/shorten_request_handler.cc:136-262 | after a POST answered 200, and after any further events, GET of the code redirects to the URL |
| Shortener.PostIsStable | src/shorten_request_handler.cc:151-160 | posting the URL again, after anything, answers the same code and stores nothing |
| Shortener.PostIsInjective | src/shorten_request_handler.cc:142-181 | distinct URLs are never answered the same code at two points of a run |
| Shortener.PostFailures | src/shorten_request_handler.cc:161-187 | no unique code exactly when all five candidates hold other URLs; a failed store exactly when a needed one is refused; both leave the table unchanged |
| Shortener.CacheIsTransparent | src/shorten_request_handler.cc:217-262 | the cache never changes an answer, and a redirect is answered exactly for a six-character code of the table |
| Shortener.PostIsReadAsMeant | src/shorten_request_handler.cc:136-188 | any reader gets the lines and the body that an answer to a POST is meant to have |
| Shortener.RedirectIsReadExactly | src/shorten_request_handler.cc:229-261 | the text of a redirect is read as it is meant if and only if the URL has inside it nothing that the reader takes for a line end |
| Shortener.GetsAreReadExactly | src/shorten_request_handler.cc:136-262 | over every run from empty stores every GET is answered by a text that is read as it is meant, if and only if no posted URL has such a line end |
| Shortener.LineEndSplitsHeader | src/shorten_request_handler.cc:136-262 | after a POST of a URL with CR LF inside, the GET of its code is answered by the text of a redirect with two headers |
| Shortener.LoneMarksMisleadLenient | src/shorten_request_handler.cc:229-261 | a URL with a lone LF or a lone CR is read as it is meant by a strict reader and not by a lenient one |
| ShortenerThreads.StepsCoded | src/shorten_request_handler.cc:142-254 | under every interleaving, with failing lookups and stores, every entry, answer and redirect pairs a posted URL with one of its five candidates |
| ShortenerThreads.StepsFirst | src/shorten_request_handler.cc:142-187 | if no two posted URLs share their first candidate, every interleaving gives each URL its first candidate and changes no entry |
| ShortenerThreads.DistinctAnswersExactly | src/shorten_request_handler.cc:142-187 | no interleaving answers two posted URLs the same code if and only if their first candidates are pairwise distinct |
| ShortenerThreads.StepsKept | src/shorten_request_handler.cc:142-254 | then every answered code stays in the table for its URL, under every interleaving |
| ShortenerThreads.AnswersLastExactly | src/shorten_request_handler.cc:142-254 | every answered code stays in the table for its URL, and no redirect of it names another URL, under every interleaving, if and only if the first candidates are pairwise distinct |
| ShortenerThreads.RedirectsAgreeExactly | src/shorten_request_handler.cc:142-254 | no redirect of an answered code names another URL, under every interleaving, if and only if the first candidates are pairwise distinct |
| ShortenerThreads.AnsweredGetRedirects | src/shorten_request_handler.cc:229-261 | then a GET of an answered code whose look-up does not fail stays with that code and URL, whatever other threads do, up to a step in which it redirects to the URL, which it reaches with its third turn at the latest |
| ShortenerThreads.RaceConfuses | src/real_database_client.cc:22-25 | two interleaved POSTs with a shared first candidate both succeed, and the second overwrites the first |
| ShortenerThreads.RaceMisleads | src/shorten_request_handler.cc:142-254 | after that a GET of the code answered to the first redirects to the second |
| ShortenerThreads.FailedLookupOverwrites | src/real_database_client.cc:92-110 | one failed lookup does the same without any interleaving |
| ShortenerThreads.OneThreadExactly | src/real_database_client.cc:92-110 | as lookups may fail, one thread's runs give distinct URLs distinct codes if and only if the first candidates are pairwise distinct |
| ShortenerThreads.PostRunsAlone | src/shorten_request_handler.cc:136-188 | the steps of a POST that nobody interrupts have the effect and the answer of the atomic POST |
| ShortenerThreads.GetRunsAlone | src/shorten_request_handler.cc:217-262 | the same for a GET |
| ShortenerLinear.NextIsAtomic | src/shorten_request_handler.cc:136-262 | each step is the atomic request that takes effect in it, or changes nothing that can be seen |
| ShortenerLinear.StepsAreAtomic | src/shorten_request_handler.cc:136-262 | with distinct first candidates the atomic requests, in the order in which they take effect, leave the table and cache of the interleaved run and give its answers and redirects |
| ShortenerLinear.LinearizableExactly | src/shorten_request_handler.cc:136-262 | every interleaved run is explained by some order of atomic requests if and only if the first candidates are pairwise distinct |
| ShortenerLinear.SequentialIsAtomic | src/shorten_request_handler.cc:136-262 | one thread whose lookups do not fail runs the atomic requests in their order, whatever the candidates |
| Decimal.StoiReadsToString | src/real_entity_storage.cc:44-47 | every 32-bit integer is read back from its decimal text, which is used up |
| Decimal.ToStringInjective | src/real_entity_storage.cc:44-47 | different ids have different file names |
| Decimal.ToStringIs | src/real_entity_storage.cc:44-47 | the text of an integer, digit by digit, with a minus in front of a negative one |
| Decimal.StoiReads | src/real_entity_storage.cc:21-27 | any white space and all the digits there are give the number, whatever follows, or nothing if it is out of range |
| Decimal.StoiReadsSigned | src/real_entity_storage.cc:21-27 | the same with a sign in front of the digits |
| Decimal.StoiNeedsDigits | src/real_entity_storage.cc:21-27 | without a digit there nothing is read |
| EntityStorage.NextIdIsFresh | src/real_entity_storage.cc:17-35 | the next id is at least 1 and above every live id, and refused exactly when the largest integer is live |
| EntityStorage.SimEntityStorage.GetNextAvailableId | src/sim_entity_storage.cc:5-27 | the loop over the live ids, in any order, finds the next id |
| EntityStorage.SimEntityStorage.Create | src/sim_entity_storage.cc:29-58 | the data is stored under the next id, in a resource made if missing; without a next id nothing changes |
| EntityStorage.SimEntityStorage.Retrieve | src/sim_entity_storage.cc:60-72 | the data of a live id, nothing otherwise |
| EntityStorage.SimEntityStorage.Update | src/sim_entity_storage.cc:74-103 | all three branches put the data under the id and answer true |
| EntityStorage.SimEntityStorage.Remove | src/sim_entity_storage.cc:105-117 | true exactly if the id was live; it no longer is, and nothing else changes |
| EntityStorage.SimEntityStorage.List | src/sim_entity_storage.cc:118-127 | the live ids, each once, in ascending order |
| EntityStorage.RealEntityStorage.GetNextAvailableId | src/real_entity_storage.cc:17-35 | the loop over file names in any order, skipping those that are no integer, finds the next id |
| EntityStorage.RealEntityStorage.Create | src/real_entity_storage.cc:51-64 | a file named by the next id of the directory, made if missing; only the directory when there is no next id or the file does not open |
| EntityStorage.RealEntityStorage.Retrieve | src/real_entity_storage.cc:67-76 | the content of the file of that decimal name, nothing if there is none |
| EntityStorage.RealEntityStorage.Update | src/real_entity_storage.cc:80-90 | the file of that decimal name is written or made; only the directory when it does not open |
| EntityStorage.RealEntityStorage.Remove | src/real_entity_storage.cc:94-97 | true exactly if the file existed; it is gone, and nothing else changes |
| EntityStorage.RealEntityStorage.List | src/real_entity_storage.cc:101-121 | the integers among the file names, in the order of the directory |
| EntityStorage.StepSimulates | src/real_entity_storage.cc:51-121 | corresponding calls give the same reply and keep the file names exactly the canonical decimals of the live ids |
| EntityStorage.FileStoreSimulatesMapStore | src/real_entity_storage.cc:17-121 | over every sequence of calls from an empty root, whichever fail to open their file, the two stores give the same replies, lists up to order |
| EntityStorage.AllocationIsFresh | src/real_entity_storage.cc:51-64 | in every related state a new id is above every live one and its file does not exist; allocation fails exactly when the largest integer is live |
| EntityStorage.FailedStepKeeps | src/real_entity_storage.cc:54-60 | a call whose file does not open fails and is as if it had not been made |
| EntityStorage.DirectoryIsMade | src/real_entity_storage.cc:51-90 | a creation or an update makes its directory, whether or not the file opens, writes the data if it does, and touches no other directory |
| EntityStorage.ListingFollowsNames | src/real_entity_storage.cc:101-121 | a listing has an id for each name that starts with an integer, in the order of the names |
| EntityThreads.CreateRunsAlone | src/real_entity_storage.cc:51-64 | a creation that nobody interrupts is the atomic one |
| EntityThreads.OneWriterIsAtomic | src/real_entity_storage.cc:51-97 | with one writing thread for each resource every interleaving gives the replies of a run of the map store and ends with its entities |
| EntityThreads.OneWriterExactly | src/real_entity_storage.cc:51-97 | no creation ever replaces an entity if and only if no resource has two writing threads |
| EntityThreads.RaceReplaces | src/real_entity_storage.cc:51-64 | two interleaved creations are both answered the id 1, and the second replaces the first |
| Crud.ExtractsFromIdUri | src/crud_request_handler.cc:116-130 | on `base/entity/id`, with any path behind it, the searches find the entity and the id |
| Crud.ExtractsFromEntityUri | src/crud_request_handler.cc:116-130 | on `base/entity`, with or without a slash behind it, they find the entity and no id |
| Crud.CanonicalUriTargets | src/crud_request_handler.cc:116-130 | the decimal text of an id, put into such a URI, targets that id |
| CrudAnswers.EntityIsLeftmost | src/crud_request_handler.cc:116-122 | the entity is the whole segment at the first place where the base, a slash and a segment stand |
| CrudAnswers.IdIsLeftmost | src/crud_request_handler.cc:124-130 | the id is the segment behind the entity at the first place where both stand |
| CrudAnswers.NothingFits | src/crud_request_handler.cc:116-130 | where they stand nowhere there is no entity, or no id |
| CrudAnswers.IdIs | src/crud_request_handler.cc:102-114 | an id is an integer that the whole text is read as; one with anything behind it is none |
| Crud.IsJsonContentType | src/crud_request_handler.cc:166-174 | the first content type header, compared without case, decides |
| CrudAnswers.ContentTypeDecides | src/crud_request_handler.cc:166-172 | the first header named `content-type`, each letter small or capital, decides: JSON if and only if its value is `application/json` |
| CrudAnswers.NoContentType | src/crud_request_handler.cc:166-174 | without one the request is not JSON |
| Crud.VectorToJson | src/crud_request_handler.cc:132-143 | the quoted ids with commas between them |
| CrudAnswers.ListingIs | src/crud_request_handler.cc:132-143 | the text of a listing, id by id |
| Crud.CrudRequestHandler.HandleRequest | src/crud_request_handler.cc:395-424 | one step on the entities that the files represent |
| Crud.CrudRequestHandler.HandlePost | src/crud_request_handler.cc:176-215 | the POST step, on files that keep representing the entities |
| Crud.CrudRequestHandler.HandleGet | src/crud_request_handler.cc:217-286 | the GET answer; nothing changes |
| Crud.CrudRequestHandler.HandlePut | src/crud_request_handler.cc:288-354 | the PUT step on the represented entities, 200 or 201 by what was there before |
| Crud.CrudRequestHandler.HandleDelete | src/crud_request_handler.cc:356-393 | the DELETE step on the represented entities, 204 or 404 by what was there before |
| Crud.FailuresChangeNothing | src/crud_request_handler.cc:176-424 | a request answered with an error changes nothing |
| Crud.StepRefinesMap | src/crud_request_handler.cc:176-424 | each request acts as on a map from (entity, id) to JSON: a write sets its key to the normalised body, a DELETE clears it, every other key is untouched |
| CrudAnswers.NormalizedIs | src/crud_request_handler.cc:189-198 | what is stored is the body, read and written again |
| Crud.StepKeepsNormal | src/crud_request_handler.cc:198-324 | every stored text stays normalised JSON |
| Crud.AnswersTellMap | src/crud_request_handler.cc:217-393 | on every URI that targets a key, GET answers 200 with the key's text or 404, PUT 200 exactly if the key existed and 201 otherwise, DELETE 204 exactly if it existed, each response in all its fields |
| Crud.PostAnswers | src/crud_request_handler.cc:200-214 | POST to any URI with an entity stores the body under an id above all live ones and answers 201 with that id in the body, or 500 exactly when the largest integer is live |
| Crud.ListAnswers | src/crud_request_handler.cc:269-285 | GET of any URI with an entity and no id lists exactly the live ids, or 404 if there is none |
| Crud.StatusTellsBadRequest | src/crud_request_handler.cc:176-424 | 400, 405 and 415 if and only if their causes, in the order the handlers look |
| Crud.StatusTellsNotFound | src/crud_request_handler.cc:217-393 | 404 if and only if the id is no integer or not there, or the listing is empty |
| Crud.StatusTellsServerError | src/crud_request_handler.cc:176-354 | 500 if and only if a good write finds its file closed to it or no id left |
| CrudAnswers.UriErrors | src/crud_request_handler.cc:395-424 | the 400 for a URI without an entity and for an unknown verb, in all fields |
| CrudAnswers.BodyErrors | src/crud_request_handler.cc:183-197 | the 415 and the 400 of a write that is not JSON, in all fields |
| CrudAnswers.IdErrors | src/crud_request_handler.cc:231-393 | the 404 for an id that is no integer, by verb, and the 405 for none, in all fields |
| CrudAnswers.StoreErrors | src/crud_request_handler.cc:202-333 | the 500 of a write whose file does not open, in all fields |
| CrudAnswers.StoredTextIsRead | src/crud_request_handler.cc:244-265 | GET answers the stored text read and written again, or 500 if it cannot be read |
| Crud.ResponsesAreReadAsMeant | src/crud_request_handler.cc:176-424 | whatever is stored, any reader gets the lines and the body that a response is meant to have |
| Crud.GetAnswersLastWrite | src/crud_request_handler.cc:176-424 | over a whole run GET answers the body of the last write of its key, and 404 after a DELETE, until the key is touched again |
| ConnectionPool.ConnectionPool.Acquire | src/database_connection_pool.cc:36-43 | one turn under the mutex: the front connection, or sleep |
| ConnectionPool.ConnectionPool.Release | src/database_connection_pool.cc:45-49 | the connection goes to the back and one sleeper, if any, is notified |
| ConnectionPool.TakeSafe | src/redis_connection_pool.cc:31-38 | acquiring, and resuming after a wake-up, keep the partition of the connections and lose no wake-up |
| ConnectionPool.GiveBackSafe | src/redis_connection_pool.cc:40-44 | so does releasing |
| ConnectionPool.WokenSafe | src/database_connection_pool.cc:38 | so does a wake-up, notified or by chance |
| PoolSystem.ReachableIsSound | src/database_connection_pool.cc:36-49 | in every reachable state of any threads on the two pools, idle, held and forgotten connections partition each pool, none is held twice and no wake-up is lost |
| PoolSystem.SomeThreadCanStep | src/real_database_client.cc:12-142 | while a thread has work on a pool with a connection left, some thread can step without a chance wake-up or an exception |
| PoolSystem.ForgottenPoolStarves | src/real_redis_client.cc:12-23 | once exceptions have forgotten every connection of a pool, work on that pool never ends |
| PoolSystem.RunsAreBounded | src/shorten_request_handler.cc:136-262 | a run takes at most four steps per acquire-release bracket, plus two for each chance wake-up |
| PoolSystem.WaitingIsDoneExactly | src/database_connection_pool.cc:36-49 | a system that can only wait has finished all work if and only if every pool that work remains on has a connection left |
| PoolSystem.RunLost | src/real_redis_client.cc:12-23 | over every run each exception costs the Redis pool one connection, and nothing else costs any |
| PoolSystem.CompleteRunsFinishExactly | src/real_redis_client.cc:12-23 | a run with any number of exceptions that cannot go on has finished all work if and only if no work remains on a pool they have used up |
| PoolSystem.CompleteRunsFinish | src/shorten_request_handler.cc:136-262 | with fewer exceptions than Redis connections, and a database connection, a run that cannot go on has finished all work |
| PoolSystem.DeadlockFreeExactly | src/real_redis_client.cc:12-23 | no threads, whatever they have to do, deadlock with at most `k` exceptions if and only if `k` is less than the Redis pool and the database pool is not empty |
| PoolSystem.ThrowDeadlocks | src/real_redis_client.cc:12-23 | one exception on a pool of one connection leaves another thread asleep for ever |
| PostgresClient.RealDatabaseClient.Store | src/real_database_client.cc:12-77 | asleep exactly on an empty pool, polling on exactly while no poll ends the loop; else true exactly if a command result came before the end, with the connection back in the pool on every exit |
| PostgresClient.RealDatabaseClient.Lookup | src/real_database_client.cc:79-142 | likewise, with the last row before the end, if any |
| PostgresClient.FoundMeans | src/real_database_client.cc:105-138 | what is found is the first value of the last rows that are not empty, before a poll that is neither busy nor rows |
| Http.Serialize | src/http_header.cc:29-40 | the text of a response, the computed length last |
| Http.TextIs | src/http_header.cc:29-40 | the text in characters: the status line, a line for each header, the length, an empty line, the body |
| LineReader.LinesAreRead | src/http_header.cc:29-40 | lines that end in CR LF are read back as written if and only if none has inside it what the reader takes for a line end |
| Http.TextIsReadExactly | src/http_header.cc:29-40 | a reader of the text, whatever follows, gets the lines and the body that are meant if and only if the status message and the headers have no such line end inside |
| Http.SplitValueIsTwoHeaders | src/http_header.cc:32-34 | a header whose value has CR LF and another header inside has the text of the two |
| Http.TextIsFramed | src/http_header.cc:29-40 | followed by any text, the text of a response whose parts have no CR LF inside and whose header names have no colon determines the response, its version field apart, and what follows |
| Http.StreamIsFramed | src/http_header.cc:29-40 | responses sent back to back are read back in one way only |

## Left out

- Sockets, sessions and signals, and the HTTP request parser: plumbing around Boost; what is kept of them is that requests run on several threads.
- Crud.CrudRequestHandler.HandleRequest: one request at a time, where `src/server_main.cc:23` starts two threads. `EntityThreads` has the threads' storage calls, creation in two steps; a PUT's look at what was there, which decides between 200 and 201, and a file half written are not in it.
- The echo, health, not-found, blocking and static handlers, the registry and logging: easy or no properties.
- The readers of handler arguments, with their file-system and environment checks: an opaque function of the statement.
- `NginxConfig::get_port`: a recursive search that would only add easy members.
- libpq, redis++ and the file system: by what they answer. File names of resources are opaque keys, so `.` and `..` as an entity name are not followed.
- The regular expressions of the CRUD handler: leftmost searches for a base path without special characters.
- The parser's partial tree after a rejected text, and the integer width of the indentation depth.
- Dispatcher.GetLocations: on the tree's values, not on objects, as it changes nothing.
- ConnectionPool.ConnectionPool.Acquire: one turn of the waiting loop; the steps of several threads are combined in `PoolSystem`.
- A Redis `set` that throws ends the process and is not modelled; a `get` that throws is `Throw`.
