/**
 * The staff directory: the configured administrators (`ADMINS`) and the
 * persisted `helpers` table, with the two access predicates every staff
 * handler checks first.
 */
module Staff {
  import opened Common
  import opened Text

  /** The value of `ADMINS` when the environment does not set it. */
  const DefaultAdmins: string := "mellfreezy"

  /** The `added_by` the start-up seeding writes for administrators. */
  const SeededBy: string := "system"

  /** `a.strip().lower()`: one configured administrator name. */
  function AdminEntry(part: string): (name: string)
    ensures Lower(name) == name
    ensures name == [] || (!IsSpace(name[0]) && !IsSpace(name[|name| - 1]))
    ensures StrippedFrom(Lower(part), name)
    ensures ',' !in part ==> ',' !in name
  {
    AdminEntryFacts(part);
    Lower(Strip(part))
  }

  lemma AdminEntryFacts(part: string)
    ensures var name := Lower(Strip(part));
            && Lower(name) == name
            && (name == [] || (!IsSpace(name[0]) && !IsSpace(name[|name| - 1])))
            && StrippedFrom(Lower(part), name)
            && (',' !in part ==> ',' !in name)
  {
    LowerIdempotent(Strip(part));
    StripLowered(part);
    StripLoweredEnds(Strip(part));
    StripKeepsAbsent(part, ',');
    LowerKeepsAbsent(Strip(part), ',');
  }

  /** Lower-casing the stripped entry is stripping the lower-cased entry. */
  lemma StripLowered(part: string)
    ensures StrippedFrom(Lower(part), Lower(Strip(part)))
  {
    var s := Strip(part);
    var k :| TrimmedAt(part, s, k);
    LowerTrimmed(part, s, k);
  }

  /** A string that neither starts nor ends with whitespace still does not once lower-cased. */
  lemma StripLoweredEnds(s: string)
    requires s == [] || (!IsSpace(s[0]) && !IsSpace(s[|s| - 1]))
    ensures var name := Lower(s); name == [] || (!IsSpace(name[0]) && !IsSpace(name[|name| - 1]))
  {
    if s != [] {
      LowerCharSpace(s[0]);
      LowerCharSpace(s[|s| - 1]);
    }
  }

  /** A character missing from a string is missing from its strip. */
  lemma StripKeepsAbsent(s: string, c: char)
    ensures c !in s ==> c !in Strip(s)
  {
    var r := Strip(s);
    var k :| TrimmedAt(s, r, k);
    forall j | 0 <= j < |r| ensures r[j] == s[k + j] {
    }
  }

  /** Lower-casing never produces a `,`, `@` or other non-letter that was not there. */
  lemma LowerKeepsAbsent(s: string, c: char)
    requires !('a' <= c <= 'z')
    ensures c !in s ==> c !in Lower(s)
  {
  }

  /**
   * `[a.strip().lower() for a in config.split(",")]`: one name per
   * comma-separated entry, that entry lower-cased with the whitespace around
   * it dropped.
   */
  function AdminsFromConfig(config: string): (admins: seq<string>)
    ensures |admins| == |Split(config, ',')|
    ensures forall i :: 0 <= i < |admins| ==> Lower(admins[i]) == admins[i] && ',' !in admins[i]
    ensures forall i :: 0 <= i < |admins| ==> admins[i] == [] || (!IsSpace(admins[i][0]) && !IsSpace(admins[i][|admins[i]| - 1]))
    ensures forall i :: 0 <= i < |admins| ==> StrippedFrom(Lower(Split(config, ',')[i]), admins[i])
  {
    var parts := Split(config, ',');
    seq(|parts|, i requires 0 <= i < |parts| => AdminEntry(parts[i]))
  }

  /** A list of names already in normal form, written comma-separated, reads back as that list. */
  lemma AdminsOfJoin(names: seq<string>)
    requires |names| >= 1
    requires forall i :: 0 <= i < |names| ==> ',' !in names[i] && Lower(names[i]) == names[i]
    requires forall i :: 0 <= i < |names| ==> names[i] == [] || (!IsSpace(names[i][0]) && !IsSpace(names[i][|names[i]| - 1]))
    ensures AdminsFromConfig(Join(names, ',')) == names
  {
    SplitJoin(names, ',');
    forall i | 0 <= i < |names| ensures AdminEntry(names[i]) == names[i] {
      StripTrimmed(names[i]);
    }
  }

  /** `os.getenv("ADMINS", "mellfreezy")`, normalised. */
  function AdminsFromEnv(env: Option<string>): (admins: seq<string>)
    ensures env.Some? ==> admins == AdminsFromConfig(env.value)
  {
    AdminsFromConfig(env.GetOr(DefaultAdmins))
  }

  /** Without `ADMINS` in the environment, the one administrator is the default. */
  lemma DefaultAdminsOnly()
    ensures AdminsFromEnv(None) == [DefaultAdmins]
  {
    var d := DefaultAdmins;
    assert forall i :: 0 <= i < |d| ==> !IsUpper(d[i]) && d[i] != ',';
    assert Lower(d) == d;
    AdminsOfJoin([d]);
  }

  /** `is_admin`: a non-empty username whose lower-case form is configured. */
  predicate IsAdmin(admins: seq<string>, username: Option<string>) {
    username.Some? && username.value != [] && Lower(username.value) in admins
  }

  /** `is_staff`: a non-empty username that is an administrator or a helper. */
  predicate IsStaff(admins: seq<string>, helpers: set<string>, username: Option<string>) {
    && username.Some? && username.value != []
    && (Lower(username.value) in admins || Lower(username.value) in helpers)
  }

  /** The access rules: nobody without a username; every administrator; otherwise exactly the helpers. */
  lemma AccessRules(admins: seq<string>, helpers: set<string>, username: Option<string>)
    ensures username.None? || username.value == [] ==> !IsStaff(admins, helpers, username) && !IsAdmin(admins, username)
    ensures IsAdmin(admins, username) ==> IsStaff(admins, helpers, username)
    ensures username.Some? && username.value != [] && Lower(username.value) !in admins ==>
              (IsStaff(admins, helpers, username) <==> Lower(username.value) in helpers)
  {
  }

  /** Once every administrator is a helper, being staff is being a helper. */
  lemma StaffAreHelpers(admins: seq<string>, helpers: set<string>, username: Option<string>)
    requires forall a :: a in admins ==> a in helpers
    ensures IsStaff(admins, helpers, username) <==> username.Some? && username.value != [] && Lower(username.value) in helpers
  {
  }

  /**
   * `message.text.strip().replace("@", "").lower()`: the helper name an
   * administrator typed, without the whitespace around it, without any `@`,
   * in lower case.
   */
  function NormaliseHelperName(text: string): (name: string)
    ensures '@' !in name && Lower(name) == name
    ensures |name| <= |text|
    ensures Strip(text) == text && '@' !in text && Lower(text) == text ==> name == text
    ensures NormalisedFrom(text, name)
  {
    var s := Strip(text);
    assert |s| <= |text| by {
      var i :| TrimmedAt(text, s, i);
    }
    var r := Lower(RemoveChar(s, '@'));
    assert '@' !in r by {
      var t := RemoveChar(s, '@');
      forall k | 0 <= k < |r| ensures r[k] != '@' {
        assert t[k] != '@';
      }
    }
    assert NormalisedFrom(text, r) by {
      assert StrippedFrom(text, s);
    }
    r
  }

  /**
   * `name` is `text` with the whitespace around it dropped (so that what is
   * kept neither starts nor ends with whitespace), every `@` removed, and
   * lower-cased.
   */
  ghost predicate NormalisedFrom(text: string, name: string) {
    exists kept :: && StrippedFrom(text, kept)
                   && (kept == [] || (!IsSpace(kept[0]) && !IsSpace(kept[|kept| - 1])))
                   && name == Lower(RemoveChar(kept, '@'))
  }

  /**
   * What an administrator usually types, `@name` with spaces around it,
   * gives `name` when that is already a lower-case username.
   */
  lemma NormaliseMention(lead: string, name: string, trail: string)
    requires forall k :: 0 <= k < |lead| ==> IsSpace(lead[k])
    requires forall k :: 0 <= k < |trail| ==> IsSpace(trail[k])
    requires name != [] && !IsSpace(name[0]) && !IsSpace(name[|name| - 1])
    requires '@' !in name && Lower(name) == name
    ensures NormaliseHelperName(lead + ['@'] + name + trail) == name
  {
    var typed := ['@'] + name;
    var text := lead + ['@'] + name + trail;
    assert text == lead + typed + trail;
    StripAround(lead, typed, trail);
    DropLeadingAt(name);
  }

  lemma DropLeadingAt(name: string)
    requires '@' !in name
    ensures RemoveChar(['@'] + name, '@') == name
  {
    assert (['@'] + name)[1..] == name;
  }

  /** The same without the `@`. */
  lemma NormalisePlain(lead: string, name: string, trail: string)
    requires forall k :: 0 <= k < |lead| ==> IsSpace(lead[k])
    requires forall k :: 0 <= k < |trail| ==> IsSpace(trail[k])
    requires name != [] && !IsSpace(name[0]) && !IsSpace(name[|name| - 1])
    requires '@' !in name && Lower(name) == name
    ensures NormaliseHelperName(lead + name + trail) == name
  {
    StripAround(lead, name, trail);
  }

  /** The first `i + 1` names are the first `i` and name `i`. */
  lemma PrefixStep(names: seq<string>, i: nat)
    requires i < |names|
    ensures forall u :: u in names[..i + 1] <==> u in names[..i] || u == names[i]
  {
    assert names[..i + 1] == names[..i] + [names[i]];
  }

  /** `set(ADMINS)` with every helper's lower-cased name added. */
  function StaffNames(admins: seq<string>, helpers: map<string, string>): set<string> {
    (set a | a in admins) + (set u | u in helpers :: Lower(u))
  }

  /** The result of the remove button's handler. */
  datatype RemoveOutcome = Removed | RefusedAdmin

  class StaffDirectory {
    /** `ADMINS`, fixed at start-up. */
    const admins: seq<string>
    /** The `helpers` table: username to `added_by`. */
    var helpers: map<string, string>

    /** Every administrator has a helper row, as the start-up seeding guarantees. */
    ghost predicate Valid()
      reads this
    {
      forall a :: a in admins ==> a in helpers
    }

    /**
     * `init_db`: the administrators from the configuration are inserted with
     * `INSERT OR IGNORE`, so rows that already exist keep their `added_by`.
     */
    constructor Init(config: string, persisted: map<string, string>)
      ensures admins == AdminsFromConfig(config)
      ensures Valid()
      ensures forall u :: u in helpers <==> u in persisted || u in admins
      ensures forall u :: u in persisted ==> helpers[u] == persisted[u]
      ensures forall u :: u in helpers && u !in persisted ==> helpers[u] == SeededBy
    {
      admins := AdminsFromConfig(config);
      helpers := persisted;
      new;
      SeedAdmins();
    }

    /** The seeding loop of `init_db`: `INSERT OR IGNORE` of each lower-cased administrator. */
    method SeedAdmins()
      requires forall i :: 0 <= i < |admins| ==> Lower(admins[i]) == admins[i]
      modifies this
      ensures forall u :: u in helpers <==> u in old(helpers) || u in admins
      ensures forall u :: u in old(helpers) ==> helpers[u] == old(helpers)[u]
      ensures forall u :: u in helpers && u !in old(helpers) ==> helpers[u] == SeededBy
    {
      ghost var before := helpers;
      var i := 0;
      while i < |admins|
        invariant 0 <= i <= |admins|
        invariant forall u :: u in helpers <==> u in before || u in admins[..i]
        invariant forall u :: u in before ==> helpers[u] == before[u]
        invariant forall u :: u in helpers && u !in before ==> helpers[u] == SeededBy
      {
        var name := Lower(admins[i]);
        if name !in helpers {
          helpers := helpers[name := SeededBy];
        }
        PrefixStep(admins, i);
        i := i + 1;
      }
      assert admins[..i] == admins;
    }

    /** `is_admin(username)` against this directory. */
    predicate Admin(username: Option<string>)
      reads this
    {
      IsAdmin(admins, username)
    }

    /** `is_staff(username)` against this directory. */
    predicate Member(username: Option<string>)
      reads this
    {
      IsStaff(admins, helpers.Keys, username)
    }

    /** `set(ADMINS)` with every helper's lower-cased name: who a new report is announced to. */
    function AllStaff(): (names: set<string>)
      reads this
      ensures forall a :: a in admins ==> a in names
      ensures forall u :: u in helpers ==> Lower(u) in names
      ensures forall n :: n in names ==> n in admins || exists u :: u in helpers && Lower(u) == n
    {
      StaffNames(admins, helpers)
    }

    /**
     * `INSERT INTO helpers`: a name that already has a row raises
     * `IntegrityError` and nothing changes.
     */
    method Add(name: string, addedBy: string) returns (added: bool)
      requires Valid()
      modifies this
      ensures Valid()
      ensures added <==> name !in old(helpers)
      ensures helpers == if added then old(helpers)[name := addedBy] else old(helpers)
    {
      added := name !in helpers;
      if added {
        helpers := helpers[name := addedBy];
      }
    }

    /**
     * The remove button: an administrator's name is refused; any other name's
     * row is deleted, and deleting a name without a row changes nothing.
     */
    method Remove(name: string) returns (outcome: RemoveOutcome)
      requires Valid()
      modifies this
      ensures Valid()
      ensures outcome == RefusedAdmin <==> name in admins
      ensures helpers == if outcome == RefusedAdmin then old(helpers) else old(helpers) - {name}
      ensures name !in old(helpers) ==> helpers == old(helpers)
    {
      if name in admins {
        outcome := RefusedAdmin;
      } else {
        helpers := helpers - {name};
        outcome := Removed;
      }
    }
  }
}
