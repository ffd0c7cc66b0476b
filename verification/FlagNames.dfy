/** The names in a client's flag list: those that stay with the membership and
    those that name tags. */
module FlagNames {
  import opened Text

  predicate Scoped(name: string) {
    name != "" && name[0] == '$'
  }

  predicate System(name: string) {
    name != "" && name[0] == '\\'
  }

  /** System flags and `$`-scoped keywords stay with the membership; every
      other name is a tag. */
  predicate IsStoredFlag(flag: string) {
    System(flag) || Scoped(flag)
  }

  /** The names that stay with the membership's own flags. */
  function StoredNames(flags: seq<string>): seq<string> {
    if flags == [] then []
    else
      var flag := Trim(flags[|flags| - 1]);
      StoredNames(flags[..|flags| - 1]) + (if IsStoredFlag(flag) then [flag] else [])
  }

  /** The names that are tag keywords. */
  function TagNames(flags: seq<string>): seq<string> {
    if flags == [] then []
    else
      var flag := Trim(flags[|flags| - 1]);
      TagNames(flags[..|flags| - 1]) + (if flag != "" && !IsStoredFlag(flag) then [flag] else [])
  }

  method SplitProtocolFlags(flags: seq<string>) returns (stored: seq<string>, keywords: seq<string>)
    ensures stored == StoredNames(flags) && keywords == TagNames(flags)
  {
    stored, keywords := [], [];
    for i := 0 to |flags|
      invariant stored == StoredNames(flags[..i]) && keywords == TagNames(flags[..i])
    {
      assert flags[..i + 1][..i] == flags[..i];
      var flag := Trim(flags[i]);
      if flag == "" {
        continue;
      }
      if IsStoredFlag(flag) {
        stored := stored + [flag];
        continue;
      }
      keywords := keywords + [flag];
    }
    assert flags[..|flags|] == flags;
  }
}
