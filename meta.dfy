/** The `Meta` cog: the stored presence message, its getter and validating
    setter, the scheduled `set` and the `setactivity` command. The ban-list
    file that `shutdown` and `restart` write is in module BanList. */
module MetaCog {
  import opened Results
  import opened PyStr
  import opened Formatting
  import opened Presence

  /** The display text of the default message. */
  function DefaultText(version: string): string
  {
    "to +help | version " + version
  }

  /** The message the cog starts with, for the bot's version text. */
  function DefaultMessage(version: string): string
  {
    "listening to +help | version " + version
  }

  /** The default message passes the setter's check, naming the listening kind. */
  lemma DefaultMessageAccepted(version: string)
    ensures Accepted(DefaultMessage(version))
    ensures Split(DefaultMessage(version), ' ')[0] == "listening"
  {
    assert DefaultMessage(version) == KindName(Listening) + " " + DefaultText(version);
    KindMessage(Listening, DefaultText(version), 0, 0);
  }

  /** For a brace-free version, `set` publishes the default message as the
      listening kind with the rest of the message as the display name. */
  lemma DefaultMessagePublishes(version: string, users: nat, guilds: nat)
    requires BraceFree(version)
    ensures Publish(DefaultMessage(version), users, guilds) == Ok(Activity(Listening, DefaultText(version)))
  {
    var rest := DefaultText(version);
    assert DefaultMessage(version) == KindName(Listening) + " " + rest;
    assert BraceFree(rest) by {
      BraceFreeAppend("to +help | version ", version);
    }
    KindMessage(Listening, rest, users, guilds);
  }

  class Meta {
    /** The stored presence message (`_message`). */
    var message: string

    /** The cog's invariant: the stored message passes the setter's check. */
    ghost predicate Valid()
      reads this
    {
      Accepted(message)
    }

    /** The cog starts with the default listening message. */
    constructor (version: string)
      ensures message == DefaultMessage(version)
      ensures Valid()
    {
      message := DefaultMessage(version);
      DefaultMessageAccepted(version);
    }

    /** The `message` getter: the stored message formatted with the live user
        and guild counts. A brace-free message comes back unchanged, and the
        kind name of a valid message survives formatting. */
    function GetMessage(users: nat, guilds: nat): (r: Result<string, FormatError>)
      reads this
      ensures BraceFree(message) ==> r == Ok(message)
      ensures Valid() && r.Ok? ==> Accepted(r.value) && Split(r.value, ' ')[0] == Split(message, ' ')[0]
    {
      FormatMessage(message, users, guilds);
      Format(message, users, guilds)
    }

    /** The `message` setter: an accepted value replaces the stored message;
        any other value raises and leaves it as it was. */
    method SetMessage(value: string) returns (r: Outcome<Error>)
      modifies this
      ensures Accepted(value) ==> r == Pass && message == value
      ensures !Accepted(value) ==> r == Fail(InvalidActivityType) && message == old(message)
      ensures old(Valid()) ==> Valid()
    {
      if !Accepted(value) {
        return Fail(InvalidActivityType);
      }
      message := value;
      return Pass;
    }

    /** `set`: the activity it hands to the presence update, or the error it
        raises; never the setter's error, whatever is stored. For a valid
        message, the published kind is the one the message names (never the
        default), and a brace-free message publishes exactly when it has a
        space, reading back as the message itself. */
    method Set(users: nat, guilds: nat) returns (r: Result<Activity, Error>)
      ensures r == Publish(message, users, guilds)
      ensures r != Err(InvalidActivityType)
      ensures Valid() && r.Ok? ==> KindName(r.value.kind) == Split(message, ' ')[0]
      ensures Valid() && BraceFree(message) ==>
                (r.Ok? <==> ' ' in message) && (r.Ok? ==> Describe(r.value) == message)
      ensures Valid() && ' ' !in message ==> r == Err(NotEnoughValues)
    {
      var text := GetMessage(users, guilds);
      r := ParseFormatted(text);
      if Accepted(message) {
        PublishStored(message, users, guilds);
      }
    }

    /** The `setactivity` command: run the setter, then `set`. A rejected text
        raises before `set` runs; an accepted brace-free text with a space
        publishes the kind and name split from the text itself. */
    method SetActivityMessage(text: string, users: nat, guilds: nat) returns (r: Result<Activity, Error>)
      modifies this
      ensures message == (if Accepted(text) then text else old(message))
      ensures !Accepted(text) ==> r == Err(InvalidActivityType)
      ensures Accepted(text) ==> r == Publish(text, users, guilds)
      ensures Accepted(text) && BraceFree(text) && ' ' in text ==>
                r == Parse(text) && r.Ok? && Describe(r.value) == text
      ensures Accepted(text) && ' ' !in text ==> r == Err(NotEnoughValues)
      ensures old(Valid()) ==> Valid()
    {
      var outcome := SetMessage(text);
      if outcome.Fail? {
        return Err(outcome.error);
      }
      r := Set(users, guilds);
      if BraceFree(text) && ' ' in text {
        PublishBraceFree(text, users, guilds);
      }
    }
  }
}
