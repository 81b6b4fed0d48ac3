/**
 * `ToolRegistry`: the tools available to the application, looked up by
 * identifier without regard to letter case (a dictionary built with
 * `StringComparer.OrdinalIgnoreCase`). The dictionary is modelled as a map
 * keyed by the upper-cased identifier, so two identifiers that differ only
 * in case share one entry.
 */
module Registry {
  import opened Values
  import opened ToolCore

  // ---------------------------------------------------------------------------
  // Case-insensitive identifiers
  // ---------------------------------------------------------------------------

  predicate IsLowerAscii(c: char) {
    'a' <= c <= 'z'
  }

  predicate IsUpperAscii(c: char) {
    'A' <= c <= 'Z'
  }

  /** Ordinal upper-casing of one character (ASCII letters only). */
  function UpperAscii(c: char): (u: char)
    ensures !IsLowerAscii(u)
    ensures IsLowerAscii(c) ==> u as int == c as int - 32
    ensures !IsLowerAscii(c) ==> u == c
  {
    if IsLowerAscii(c) then (c as int - 32) as char else c
  }

  /** The key an identifier is stored under: every character upper-cased. */
  function NormalizeId(id: string): (key: string)
    ensures |key| == |id|
  {
    seq(|id|, i requires 0 <= i < |id| => UpperAscii(id[i]))
  }

  /** Two characters are the same letter in either case, or identical. */
  predicate SameLetter(c: char, d: char) {
    c == d
    || (IsLowerAscii(c) && IsUpperAscii(d) && c as int == d as int + 32)
    || (IsUpperAscii(c) && IsLowerAscii(d) && d as int == c as int + 32)
  }

  /** `StringComparer.OrdinalIgnoreCase.Equals(a, b)`, stated character by character. */
  predicate EqualsIgnoreCase(a: string, b: string) {
    |a| == |b| && forall i :: 0 <= i < |a| ==> SameLetter(a[i], b[i])
  }

  /** Normalised keys coincide exactly when the identifiers are equal ignoring case. */
  lemma NormalizeIdExact(a: string, b: string)
    ensures NormalizeId(a) == NormalizeId(b) <==> EqualsIgnoreCase(a, b)
  {
    if NormalizeId(a) == NormalizeId(b) {
      forall i | 0 <= i < |a| ensures SameLetter(a[i], b[i]) {
        assert NormalizeId(a)[i] == NormalizeId(b)[i];
      }
    }
    if EqualsIgnoreCase(a, b) {
      forall i | 0 <= i < |a| ensures NormalizeId(a)[i] == NormalizeId(b)[i] {
        assert SameLetter(a[i], b[i]);
      }
    }
  }

  // ---------------------------------------------------------------------------
  // The dictionary as a value
  // ---------------------------------------------------------------------------

  /** Every entry is stored under the normalised form of its own tool's identifier. */
  ghost predicate WellKeyed(tools: map<string, Tool>) {
    forall k :: k in tools ==> k == NormalizeId(tools[k].id)
  }

  /** `_tools.TryGetValue(id, out var tool) ? tool : null`. */
  function Lookup(tools: map<string, Tool>, id: string): (found: Option<Tool>)
    requires WellKeyed(tools)
    ensures found.Some? ==> found.value in tools.Values && EqualsIgnoreCase(found.value.id, id)
    ensures found.None? ==> forall t :: t in tools.Values ==> !EqualsIgnoreCase(t.id, id)
  {
    var key := NormalizeId(id);
    if key in tools then
      NormalizeIdExact(tools[key].id, id);
      Some(tools[key])
    else
      assert forall t :: t in tools.Values ==> !EqualsIgnoreCase(t.id, id) by {
        forall t | t in tools.Values ensures !EqualsIgnoreCase(t.id, id) {
          var k :| k in tools && tools[k] == t;
          NormalizeIdExact(t.id, id);
        }
      }
      None
  }

  /** `_tools[tool.Id] = tool`: inserts, or overwrites the entry of an identifier equal ignoring case. */
  function Registered(tools: map<string, Tool>, tool: Tool): (after: map<string, Tool>)
    requires WellKeyed(tools)
    ensures WellKeyed(after)
    ensures Lookup(after, tool.id) == Some(tool)
    ensures forall id :: !EqualsIgnoreCase(id, tool.id) ==> Lookup(after, id) == Lookup(tools, id)
  {
    var after := tools[NormalizeId(tool.id) := tool];
    forall id | !EqualsIgnoreCase(id, tool.id) ensures Lookup(after, id) == Lookup(tools, id) {
      NormalizeIdExact(id, tool.id);
    }
    after
  }

  /** A lookup by any spelling of the same identifier finds the same entry. */
  lemma LookupIgnoresCase(tools: map<string, Tool>, a: string, b: string)
    requires WellKeyed(tools) && EqualsIgnoreCase(a, b)
    ensures Lookup(tools, a) == Lookup(tools, b)
  {
    NormalizeIdExact(a, b);
  }

  /** Registering two tools whose identifiers differ only in case leaves one entry: the later tool. */
  lemma LastRegistrationWins(tools: map<string, Tool>, first: Tool, second: Tool)
    requires WellKeyed(tools) && EqualsIgnoreCase(first.id, second.id)
    ensures var after := Registered(Registered(tools, first), second);
      Lookup(after, first.id) == Some(second)
      && Lookup(after, second.id) == Some(second)
      && |after| == |Registered(tools, second)|
  {
    NormalizeIdExact(first.id, second.id);
    var after := Registered(Registered(tools, first), second);
    assert after == Registered(tools, second);
    LookupIgnoresCase(after, first.id, second.id);
  }

  /** Registering adds at most one entry, and never removes one. */
  lemma RegisterGrowsByAtMostOne(tools: map<string, Tool>, tool: Tool)
    requires WellKeyed(tools)
    ensures tools.Keys <= Registered(tools, tool).Keys
    ensures |Registered(tools, tool)| <= |tools| + 1
  {
    var after := Registered(tools, tool);
    assert after.Keys == tools.Keys + {NormalizeId(tool.id)};
  }

  // ---------------------------------------------------------------------------
  // The registry object
  // ---------------------------------------------------------------------------

  /** The exceptions `ArgumentNullException.ThrowIfNull` and `ArgumentException.ThrowIfNullOrEmpty` raise. */
  datatype ArgumentError = ArgumentNull | ArgumentEmpty

  class ToolRegistry {
    /** `_tools`, keyed by the normalised identifier. */
    var tools: map<string, Tool>

    ghost predicate Valid()
      reads this
    {
      WellKeyed(tools)
    }

    constructor()
      ensures Valid() && tools == map[]
    {
      tools := map[];
    }

    /** `Register(tool)`: a null tool is refused; any other is inserted or overwrites its entry. */
    method Register(tool: Option<Tool>) returns (r: Result<(), ArgumentError>)
      requires Valid()
      modifies this
      ensures Valid()
      ensures tool.None? ==> r == Err(ArgumentNull) && tools == old(tools)
      ensures tool.Some? ==> r == Ok(()) && tools == Registered(old(tools), tool.value)
    {
      if tool.None? {
        return Err(ArgumentNull);
      }
      tools := Registered(tools, tool.value);
      r := Ok(());
    }

    /** `GetById(id)`: null or "" is refused; otherwise the tool found ignoring case, or null. */
    method GetById(id: Option<string>) returns (r: Result<Option<Tool>, ArgumentError>)
      requires Valid()
      ensures id.None? ==> r == Err(ArgumentNull)
      ensures id == Some("") ==> r == Err(ArgumentEmpty)
      ensures id.Some? && id.value != "" ==> r == Ok(Lookup(tools, id.value))
    {
      if id.None? {
        return Err(ArgumentNull);
      }
      if id.value == "" {
        return Err(ArgumentEmpty);
      }
      var key := NormalizeId(id.value);
      if key in tools {
        r := Ok(Some(tools[key]));
      } else {
        r := Ok(None);
      }
    }

    /**
     * `GetAll()`: a new list holding every stored tool once. A sequence is a
     * value, so registrations made afterwards cannot change it. The order is
     * left open.
     */
    method GetAll() returns (all: seq<Tool>)
      requires Valid()
      ensures |all| == |tools|
      ensures forall t :: t in all <==> t in tools.Values
      ensures forall i, j :: 0 <= i < j < |all| ==> !EqualsIgnoreCase(all[i].id, all[j].id)
    {
      var remaining := tools.Keys;
      ghost var keys: seq<string> := [];
      all := [];
      while remaining != {}
        invariant remaining <= tools.Keys
        invariant |keys| == |all| && |keys| + |remaining| == |tools.Keys|
        invariant forall i :: 0 <= i < |keys| ==> keys[i] in tools && keys[i] !in remaining && all[i] == tools[keys[i]]
        invariant forall i, j :: 0 <= i < j < |keys| ==> keys[i] != keys[j]
        invariant forall k :: k in tools && k !in remaining ==> k in keys
        decreases |remaining|
      {
        var k :| k in remaining;
        remaining := remaining - {k};
        keys := keys + [k];
        all := all + [tools[k]];
      }
      assert |tools.Keys| == |tools|;
      ListedOnce(tools, keys, all);
    }
  }

  /** A list with the entry of every key once holds every stored tool, and no two of its identifiers meet ignoring case. */
  lemma ListedOnce(tools: map<string, Tool>, keys: seq<string>, all: seq<Tool>)
    requires WellKeyed(tools) && |keys| == |all|
    requires forall i :: 0 <= i < |keys| ==> keys[i] in tools && all[i] == tools[keys[i]]
    requires forall i, j :: 0 <= i < j < |keys| ==> keys[i] != keys[j]
    requires forall k :: k in tools ==> k in keys
    ensures forall t :: t in all <==> t in tools.Values
    ensures forall i, j :: 0 <= i < j < |all| ==> !EqualsIgnoreCase(all[i].id, all[j].id)
  {
    forall t | t in tools.Values ensures t in all {
      var k :| k in tools && tools[k] == t;
      var i :| 0 <= i < |keys| && keys[i] == k;
      assert all[i] == t;
    }
    forall i, j | 0 <= i < j < |all| ensures !EqualsIgnoreCase(all[i].id, all[j].id) {
      NormalizeIdExact(all[i].id, all[j].id);
    }
  }
}
