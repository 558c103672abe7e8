# Presence message and ban-list file of the `Meta` cog

This project models the part of the chat bot's `Meta` cog (`lib/cogs/meta.py`)
that is the cog's own logic rather than calls into the chat library:

- the stored presence message `_message`: the constructor's default
  (`"listening to +help | version …"`), the `message` getter that formats it
  with the live user and guild counts, and the `message` setter that accepts a
  value only when the text before its first `" "` is `playing`, `watching`,
  `listening` or `streaming`;
- `set`, which splits the (formatted) message at its first space into a kind
  name and a display name and looks the kind up, defaulting to `playing`;
- the `setactivity` command, which runs the setter and then `set`;
- the text that `shutdown` and `restart` write to the ban-list file: every
  entry followed by a newline, in order.

Files:

- `results.dfy` — `Result` and `Outcome` for operations that can raise.
- `pystr.dfy` — module `PyStr`: Python's `str.split(sep)`, `str.split(sep, 1)`
  and `sep.join` on a one-character separator, with the facts that pin them
  down (pieces hold no separator and join back to the input; the split is the
  only such cut).
- `formatting.dfy` — module `Formatting`: the part of `str.format` that
  `self._message.format(users=…, guilds=…)` uses (`Format`): literal text,
  `{{`/`}}`, the fields `{users}` and `{guilds}`, and the errors for any other
  brace.
- `presence.dfy` — module `Presence`: the activity kinds, the setter's check
  (`Accepted`), the split and lookup of `set` (`Parse`) and what `set`
  publishes for a stored message (`Publish`, the getter's format followed by
  `Parse`).
- `banlist.dfy` — module `BanList`: the list comprehension on lines 87 and 101
  (`BanLines`), what `writelines` writes (`WriteLines`) and the file content
  (`FileContent`).
- `meta.dfy` — module `MetaCog`: the class `Meta` with the field `message`
  (the source's `_message`), its constructor, the getter, the setter, `set`
  and `setactivity`; the class invariant `Valid()` is "the stored message
  passes the setter's check".

Inputs the source takes from the bot object (the bot's version text,
`len(self.bot.users)`, `len(self.bot.guilds)`, `self.bot.banlist`) are
parameters. Each ban-list entry is given as its `str()` text.

Details of the code that the model follows:

- `set` reads `self.message`, which is the getter (line 34 through line 24),
  so `Publish` formats the stored message before it splits it.
- The kind is the text before the first `" "`, not the first
  whitespace-delimited token: `"playing\tchess"` is rejected, and
  `"playing  chess"` is accepted and published with the name `" chess"`.
- `restart_bot` reads `ctx.authout` on line 96 before it reaches the file
  write (see "Left out").

## Model

| member | source | states |
|---|---|---|
| `PyStr.Split` | lib/cogs/meta.py:28 | `value.split(" ")` returns at least one piece, no piece holds a space, and the pieces joined with `" "` are the value again; so element 0 is the text before the first space, or all of it |
| `PyStr.SplitUnique` | lib/cogs/meta.py:28 | any list of separator-free pieces that joins to a string is that string's split: the split is fully determined |
| `PyStr.SplitOnce` | lib/cogs/meta.py:34 | `split(" ", maxsplit=1)` gives one piece exactly when there is no space (then the piece is the whole text), otherwise a first piece without a space and a rest with `first + " " + rest == text`; its first piece is the first piece of the full split |
| `PyStr.SplitOnceUnique` | lib/cogs/meta.py:34 | a space-free kind, a space and any name split back into exactly that kind and that name, whatever spaces the name holds |
| `PyStr.CountJoin` | lib/cogs/meta.py:87 | helper for `BanList.FileContentReadBack`: joining separator-free pieces puts exactly one separator between neighbours (pieces minus one) |
| `Formatting.Decimal` | lib/cogs/meta.py:24 | the text that replaces `{users}` or `{guilds}` (the `str` of a `len`) is a non-empty run of decimal digits that spells the count (its value read most significant digit first is `n`) with no leading zero |
| `Formatting.FormatBraceFree` | lib/cogs/meta.py:24 | the getter returns a brace-free stored message unchanged, whatever the user and guild counts |
| `Formatting.FormatLiteralPrefix` | lib/cogs/meta.py:24 | brace-free text in front of a template is copied unchanged in front of the formatted rest, and an error in the rest is the error of the whole |
| `Formatting.FormatField` | lib/cogs/meta.py:24 | `{users}` and `{guilds}` are replaced by the decimal user and guild counts |
| `Formatting.FormatUnknownField` | lib/cogs/meta.py:24 | any other plain field name (one without the conversion `!`, format-specification `:` or attribute `.` syntax, which Python gives a meaning on the counts) raises, naming the field |
| `Formatting.FormatSingleCloseBrace` | lib/cogs/meta.py:24 | a `}` that is not doubled raises |
| `Formatting.FormatUnclosedField` | lib/cogs/meta.py:24 | a `{` with no `}` after it raises |
| `Formatting.FormatEscape` | lib/cogs/meta.py:24 | doubled braces format to single braces: doubling every brace of a text and formatting gives the text back |
| `Formatting.BraceFreeAppend` | lib/cogs/meta.py:24 | helper: a concatenation is brace-free exactly when both parts are (used to carry brace-freeness to the default message) |
| `Presence.KindName` | lib/cogs/meta.py:28 | the name of every activity kind is one of the four names the setter accepts |
| `Presence.KindOf` | lib/cogs/meta.py:35 | the `getattr` lookup maps each of the four accepted names to the kind of that name, and every other name to `playing` |
| `Presence.KindRoundTrip` | lib/cogs/meta.py:35 | looking up the name of a kind gives the kind back, so the four names map to four different kinds |
| `Presence.KindNamePlain` | lib/cogs/meta.py:28 | helper: no accepted kind name holds a brace or a space |
| `Presence.AcceptedForms` | lib/cogs/meta.py:28-29 | both directions: the setter accepts a value exactly when it is a kind name alone, or it has a space and the text before the first space is a kind name |
| `Presence.AcceptedKindAndText` | lib/cogs/meta.py:28 | a kind name alone, and a kind name followed by a space and any text, are accepted (the setter accepts `"playing"`) |
| `Presence.RejectsEmptyAndLeadingSpace` | lib/cogs/meta.py:28-29 | the empty value and every value starting with a space are rejected, because the text before the first space is then empty |
| `Presence.Parse` | lib/cogs/meta.py:34-35 | `set`'s unpacking fails with "not enough values" exactly when the text has no space; otherwise the kind is the lookup of the text before the first space and that text, a space and the name give the text back |
| `Presence.ParseSplit` | lib/cogs/meta.py:34-35 | a space-free kind name, a space and any name parse into the looked-up kind and exactly that name |
| `Presence.ParseDescribe` | lib/cogs/meta.py:34-35 | writing an activity back as "kind name, space, name" and parsing it gives the same activity |
| `Presence.ParseAccepted` | lib/cogs/meta.py:34-35 | an accepted text with a space parses, its kind's name is the text before the first space (the default is never taken), and it reads back as the text |
| `Presence.FormatKeepsKind` | lib/cogs/meta.py:24 | formatting an accepted message keeps it accepted under the same kind name; without a space it is unchanged, with a space only the text after the first space is formatted |
| `Presence.FormatMessage` | lib/cogs/meta.py:24 | the getter's result for any stored message: unchanged if brace-free, still accepted under the same kind name if accepted |
| `Presence.PublishAccepted` | lib/cogs/meta.py:33-35 | for an accepted stored message, `set` fails to unpack when there is no space, and otherwise publishes the kind the message names with the formatted text after the first space as the name, or raises the format error of that text |
| `Presence.PublishStored` | lib/cogs/meta.py:33-35 | for an accepted stored message, `set` publishes the kind the message names and never the default, and for a brace-free message publishes exactly when there is a space, an activity that reads back as the message |
| `Presence.PublishBraceFree` | lib/cogs/meta.py:33-35 | a brace-free message with a space publishes the split of the message itself |
| `Presence.PublishKindAndName` | lib/cogs/meta.py:33-35 | a brace-free, space-free kind, a space and a brace-free name publish that kind and that name |
| `Presence.KindMessage` | lib/cogs/meta.py:28-35 | a kind's name, a space and any text are accepted under that kind's name and, for brace-free text, publish that kind with the text as name |
| `Presence.AcceptedButNotPublishable` | lib/cogs/meta.py:28-34 | the error case: `"playing"` passes the setter's check, yet `set` fails unpacking it |
| `Presence.PublishPlayingChess` | lib/cogs/meta.py:37-40 | `setactivity playing chess` publishes kind playing with name `"chess"` |
| `MetaCog.DefaultMessageAccepted` | lib/cogs/meta.py:18 | the constructor's default message passes the setter's check under the kind name `listening` |
| `MetaCog.DefaultMessagePublishes` | lib/cogs/meta.py:18 | with a brace-free version text, the default message publishes kind listening with the rest of the message (the help hint and the version) as the name |
| `MetaCog.Meta.constructor` | lib/cogs/meta.py:15-18 | the cog starts with the default message and with its invariant established |
| `MetaCog.Meta.GetMessage` | lib/cogs/meta.py:22-24 | the getter returns a brace-free stored message unchanged, and under the invariant a successful result is still accepted under the stored kind name |
| `MetaCog.Meta.SetMessage` | lib/cogs/meta.py:26-31 | an accepted value becomes the stored message exactly; any other value raises "Invalid activity type" and leaves the stored message as it was; the invariant is kept, and the message is the cog's only state |
| `MetaCog.Meta.Set` | lib/cogs/meta.py:33-35 | `set` publishes what `Publish` gives for the stored message and never raises the setter's error, whatever is stored; under the invariant it publishes the stored kind name (no default), a brace-free message publishes exactly when it has a space and reads back as the message, and a message without a space fails unpacking |
| `MetaCog.Meta.SetActivityMessage` | lib/cogs/meta.py:37-40 | a rejected text raises before `set` runs and changes nothing; an accepted text is stored and then published; a brace-free accepted text with a space publishes the kind and name split from the text itself; one without a space fails unpacking; the invariant is kept |
| `BanList.FileContentLines` | lib/cogs/meta.py:86-87 | an empty ban list gives an empty file; otherwise the file is the first entry, a newline, and the file of the rest |
| `BanList.FileContentAppend` | lib/cogs/meta.py:86-87 | the file of two lists one after the other is the first's file followed by the second's: entries appear in order |
| `BanList.FileContentIsJoin` | lib/cogs/meta.py:86-87 | the file is the entries joined by newlines with one more newline at the end |
| `BanList.FileContentReadBack` | lib/cogs/meta.py:100-101 | when no entry holds a newline, the file has one newline per entry and splitting it on newlines gives the entries back in order plus the empty piece after the last newline; `shutdown` (line 87) and `restart` (line 101) build this one content |

`PyStr.Join`, `PyStr.Count`, `Formatting.DigitsValue`, `Formatting.Format`,
`Formatting.Escape`,
`Presence.Accepted`, `Presence.Describe`, `Presence.Publish`,
`Presence.ParseFormatted`, `BanList.BanLines`, `BanList.WriteLines`,
`BanList.FileContent`, `MetaCog.DefaultMessage` and `MetaCog.DefaultText` are
the definitions the rows above are about.

## Left out

- The chat library's calls (`change_presence`, `ctx.send`, `message.edit`, `bot.logout`, building `Activity` and `Embed`, `add_field`): network I/O through a library that is not part of this model. `Meta.Set` and `Meta.SetActivityMessage` return the activity that would be handed to `change_presence`, or the error raised before it.
- `ping` and `stats`: clock, process and memory readings and floating-point formatting. `stats` also cannot run as written (a missing comma between the tuples on lines 71 and 72, and `self.bot.use` on line 53).
- The scheduler (job registration on line 20, `shutdown()` on line 90, the call on line 104) and `db.commit()` (lines 89 and 103): external services. The every-minute trigger is the caller of `Meta.Set`.
- Opening and writing the ban-list file (lines 86 and 100): only its content is modelled, as text; the UTF-8 encoding and any platform newline translation are not.
- `restart_bot` beyond its file content: as written it reads `ctx.authout` on line 96 (evidently meant as `ctx.author`, as on line 52) before the file write; whether that lookup raises depends on the chat library's context object, which is not part of this model, so the model gives `restart` the same file content as `shutdown`.
- The `on_ready` hook (lines 108-110) and `setup` (lines 113-114): they call into the bot's cross-cog readiness tracker and cog registry.
- Concurrency between the scheduled `set` and the commands: the source has no coordination; each modelled call runs to completion.
- Formatting.Format: only literal text, `{{`, `}}`, `{users}` and `{guilds}` format; every other replacement field raises in the model, whereas Python also accepts conversions, format specifications and attribute access on the counts (`{users!r}`, `{users:,}`, `{users.real}`) and reports index, key or type errors of several kinds; the model names one error per cause.
- Presence.KindOf: the lookup knows the four accepted kinds; the chat library's activity enumeration has further members (such as `competing`) that `getattr` would return for their names, which the model maps to `playing`. For stored messages this is never reached (`Presence.PublishStored`).
- The bot's version text is a string parameter; how the f-string on line 18 renders a non-string version is not modelled.
