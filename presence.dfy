/** The bot's presence: the four activity kinds, the check the message setter
    applies, and how `set` turns a message into the activity it publishes. */
module Presence {
  import opened Results
  import opened PyStr
  import opened Formatting

  /** The members of the chat library's activity enumeration that the cog names. */
  datatype ActivityType = Playing | Watching | Listening | Streaming

  /** What `set` passes to the presence update: a kind and a display name. */
  datatype Activity = Activity(kind: ActivityType, name: string)

  /** The errors the cog's own code raises. */
  datatype Error =
    | InvalidActivityType          // the setter's `ValueError("Invalid activity type.")`
    | NotEnoughValues              // unpacking a one-piece split into two names
    | FormatFailed(cause: FormatError)  // the getter's `str.format` raised

  /** The accepted kind names, in the order the setter lists them. */
  const KindNames: seq<string> := ["playing", "watching", "listening", "streaming"]

  /** The attribute name of an activity kind. */
  function KindName(k: ActivityType): (r: string)
    ensures r in KindNames
  {
    match k
    case Playing => "playing"
    case Watching => "watching"
    case Listening => "listening"
    case Streaming => "streaming"
  }

  /** `getattr(ActivityType, name, ActivityType.playing)` over the four kinds:
      each accepted name gives its own kind, any other name gives playing. */
  function KindOf(name: string): (r: ActivityType)
    ensures name in KindNames ==> KindName(r) == name
    ensures name !in KindNames ==> r == Playing
  {
    if name == "watching" then Watching
    else if name == "listening" then Listening
    else if name == "streaming" then Streaming
    else Playing
  }

  /** Naming a kind and looking the name up gives the kind back. */
  lemma KindRoundTrip(k: ActivityType)
    ensures KindOf(KindName(k)) == k
  {
  }

  /** The setter's check: the text before the first space (all of it when
      there is no space) is one of the four kind names. */
  predicate Accepted(value: string)
  {
    Split(value, ' ')[0] in KindNames
  }

  /** No kind name holds a brace or a space. */
  lemma KindNamePlain(k: string)
    requires k in KindNames
    ensures BraceFree(k) && ' ' !in k
  {
  }

  /** The setter accepts exactly a kind name alone, or a kind name, a space and
      any text at all. */
  lemma AcceptedForms(value: string)
    ensures Accepted(value) <==>
              value in KindNames ||
              (' ' in value && SplitOnce(value, ' ')[0] in KindNames)
  {
    var k := Split(value, ' ')[0];
    if ' ' !in value {
      SplitNoSeparator(value, ' ');
      assert k == value;
    } else {
      assert value in KindNames ==> ' ' !in value by {
        if value in KindNames {
          KindNamePlain(value);
        }
      }
      assert SplitOnce(value, ' ')[0] == k;
    }
  }

  /** A kind name, alone or followed by a space and any text, is accepted. */
  lemma AcceptedKindAndText(k: string, text: string)
    requires k in KindNames
    ensures Accepted(k)
    ensures Accepted(k + " " + text)
  {
    KindNamePlain(k);
    SplitNoSeparator(k, ' ');
    SplitAtFirstSeparator(k, text, ' ');
  }

  /** The empty message and every message that starts with a space are
      rejected: the text before the first space is then empty. */
  lemma RejectsEmptyAndLeadingSpace(value: string)
    requires value == [] || value[0] == ' '
    ensures !Accepted(value)
  {
    if value != [] {
      assert value == [] + [' '] + value[1..];
      SplitAtFirstSeparator([], value[1..], ' ');
    }
  }

  /** The split and kind lookup of `set`: `kind, name = text.split(" ", 1)`,
      which fails when `text` has no space; otherwise the kind is looked up
      and the name is everything after the first space. */
  function Parse(text: string): (r: Result<Activity, Error>)
    ensures ' ' !in text <==> r == Err(NotEnoughValues)
    ensures r.Ok? || r == Err(NotEnoughValues)
    ensures r.Ok? ==> r.value.kind == KindOf(Split(text, ' ')[0])
    ensures r.Ok? ==> Split(text, ' ')[0] + " " + r.value.name == text
  {
    var parts := SplitOnce(text, ' ');
    if |parts| != 2 then Err(NotEnoughValues)
    else Ok(Activity(KindOf(parts[0]), parts[1]))
  }

  /** The message an activity reads as: its kind name, a space, its name. */
  function Describe(a: Activity): string
  {
    KindName(a.kind) + " " + a.name
  }

  /** A kind without a space, a space and a name parse back into that kind and
      that name, whatever spaces the name holds. */
  lemma ParseSplit(kind: string, name: string)
    requires ' ' !in kind
    ensures Parse(kind + " " + name) == Ok(Activity(KindOf(kind), name))
  {
    SplitOnceUnique(kind, name, ' ');
  }

  /** Describing an activity and parsing the text gives the activity back. */
  lemma ParseDescribe(a: Activity)
    ensures Parse(Describe(a)) == Ok(a)
  {
    KindNamePlain(KindName(a.kind));
    ParseSplit(KindName(a.kind), a.name);
    KindRoundTrip(a.kind);
  }

  /** An accepted message with a space parses into an activity that describes
      the message exactly; the default kind is never used for it. */
  lemma ParseAccepted(text: string)
    requires Accepted(text)
    requires ' ' in text
    ensures Parse(text).Ok?
    ensures Describe(Parse(text).value) == text
    ensures KindName(Parse(text).value.kind) == Split(text, ' ')[0]
  {
  }

  /** What `set` publishes for a stored message: the getter formats it, then
      the result is split and looked up. */
  function Publish(message: string, users: nat, guilds: nat): Result<Activity, Error>
  {
    ParseFormatted(Format(message, users, guilds))
  }

  /** Parse the getter's result, passing on an error it raised. */
  function ParseFormatted(text: Result<string, FormatError>): Result<Activity, Error>
  {
    match text
    case Ok(t) => Parse(t)
    case Err(e) => Err(FormatFailed(e))
  }

  /** Formatting an accepted message keeps its kind name and whether it has a
      space: the kind name holds no brace, so only the text after it changes. */
  lemma FormatKeepsKind(message: string, users: nat, guilds: nat)
    requires Accepted(message)
    ensures Format(message, users, guilds).Ok? ==>
              Accepted(Format(message, users, guilds).value) &&
              Split(Format(message, users, guilds).value, ' ')[0] == Split(message, ' ')[0]
    ensures ' ' !in message ==> Format(message, users, guilds) == Ok(message)
    ensures ' ' in message ==>
              Format(message, users, guilds) ==
              Prepend(Split(message, ' ')[0] + " ", Format(SplitOnce(message, ' ')[1], users, guilds))
  {
    var k := Split(message, ' ')[0];
    KindNamePlain(k);
    if ' ' !in message {
      SplitNoSeparator(message, ' ');
      FormatBraceFree(message, users, guilds);
    } else {
      var rest := SplitOnce(message, ' ')[1];
      assert message == (k + " ") + rest;
      FormatLiteralPrefix(k + " ", rest, users, guilds);
      match Format(rest, users, guilds)
      case Ok(v) =>
        assert k + " " + v == k + [' '] + v;
        SplitAtFirstSeparator(k, v, ' ');
      case Err(_) =>
    }
  }

  /** What formatting does to any message: a brace-free one is unchanged, an
      accepted one stays accepted under the same kind name. */
  lemma FormatMessage(message: string, users: nat, guilds: nat)
    ensures BraceFree(message) ==> Format(message, users, guilds) == Ok(message)
    ensures Accepted(message) && Format(message, users, guilds).Ok? ==>
              Accepted(Format(message, users, guilds).value) &&
              Split(Format(message, users, guilds).value, ' ')[0] == Split(message, ' ')[0]
  {
    if BraceFree(message) {
      FormatBraceFree(message, users, guilds);
    }
    if Accepted(message) {
      FormatKeepsKind(message, users, guilds);
    }
  }

  /** What `set` publishes for an accepted message: the kind the message
      names, never the default; and for a brace-free message, an activity
      exactly when the message has a space, one that reads back as the
      message itself. */
  lemma PublishStored(message: string, users: nat, guilds: nat)
    requires Accepted(message)
    ensures Publish(message, users, guilds).Ok? ==>
              KindName(Publish(message, users, guilds).value.kind) == Split(message, ' ')[0]
    ensures BraceFree(message) ==>
              (Publish(message, users, guilds).Ok? <==> ' ' in message) &&
              (Publish(message, users, guilds).Ok? ==> Describe(Publish(message, users, guilds).value) == message)
    ensures ' ' !in message ==> Publish(message, users, guilds) == Err(NotEnoughValues)
  {
    var k := Split(message, ' ')[0];
    KindNamePlain(k);
    PublishAccepted(message, users, guilds);
    if ' ' in message && BraceFree(message) {
      var rest := SplitOnce(message, ' ')[1];
      assert BraceFree(rest) by {
        assert message == (k + [' ']) + rest;
        BraceFreeAppend(k + [' '], rest);
      }
      FormatBraceFree(rest, users, guilds);
      var a := Activity(KindOf(k), rest);
      assert Publish(message, users, guilds) == Ok(a);
      assert Describe(a) == message by {
        assert KindName(a.kind) == k;
      }
    }
  }

  /** For a message the setter accepted: a message without a space can never
      be published; one with a space publishes the kind it names, with the
      formatted text after the first space as the display name. */
  lemma PublishAccepted(message: string, users: nat, guilds: nat)
    requires Accepted(message)
    ensures ' ' !in message ==> Publish(message, users, guilds) == Err(NotEnoughValues)
    ensures ' ' in message ==>
              match Format(SplitOnce(message, ' ')[1], users, guilds)
              case Ok(v) =>
                Publish(message, users, guilds) == Ok(Activity(KindOf(Split(message, ' ')[0]), v)) &&
                KindName(KindOf(Split(message, ' ')[0])) == Split(message, ' ')[0]
              case Err(e) => Publish(message, users, guilds) == Err(FormatFailed(e))
  {
    FormatKeepsKind(message, users, guilds);
    if ' ' in message {
      var k := Split(message, ' ')[0];
      KindNamePlain(k);
      match Format(SplitOnce(message, ' ')[1], users, guilds)
      case Ok(v) => ParseSplit(k, v);
      case Err(_) =>
    }
  }

  /** A brace-free message with a space publishes the kind and name obtained by
      splitting the message itself. */
  lemma PublishBraceFree(message: string, users: nat, guilds: nat)
    requires BraceFree(message)
    requires ' ' in message
    ensures Publish(message, users, guilds) == Parse(message)
    ensures Publish(message, users, guilds).Ok?
  {
    FormatBraceFree(message, users, guilds);
  }

  /** `"playing"` passes the setter's check, yet `set` cannot unpack it. */
  lemma AcceptedButNotPublishable(users: nat, guilds: nat)
    ensures Accepted("playing")
    ensures Publish("playing", users, guilds) == Err(NotEnoughValues)
  {
    AcceptedKindAndText("playing", "");
    PublishAccepted("playing", users, guilds);
  }

  /** A brace-free kind without a space, a space and a brace-free name publish
      that kind and that name. */
  lemma PublishKindAndName(kind: string, name: string, users: nat, guilds: nat)
    requires ' ' !in kind
    requires BraceFree(kind) && BraceFree(name)
    ensures Publish(kind + " " + name, users, guilds) == Ok(Activity(KindOf(kind), name))
  {
    FormatBraceFree(kind + " " + name, users, guilds);
    ParseSplit(kind, name);
  }

  /** A kind's name, a space and any text: accepted, naming that kind, and
      published as that kind with the text as its name when the text is
      brace-free. */
  lemma KindMessage(kind: ActivityType, text: string, users: nat, guilds: nat)
    ensures Accepted(KindName(kind) + " " + text)
    ensures Split(KindName(kind) + " " + text, ' ')[0] == KindName(kind)
    ensures BraceFree(text) ==>
              Publish(KindName(kind) + " " + text, users, guilds) == Ok(Activity(kind, text))
  {
    var k := KindName(kind);
    KindNamePlain(k);
    AcceptedKindAndText(k, text);
    SplitAtFirstSeparator(k, text, ' ');
    if BraceFree(text) {
      PublishKindAndName(k, text, users, guilds);
      KindRoundTrip(kind);
    }
  }

  /** The setactivity example: `"playing chess"` publishes kind playing with
      name `"chess"`. */
  lemma PublishPlayingChess(users: nat, guilds: nat)
    ensures Publish("playing chess", users, guilds) == Ok(Activity(Playing, "chess"))
  {
    PublishKindAndName("playing", "chess", users, guilds);
    assert "playing" + " " + "chess" == "playing chess";
  }
}
