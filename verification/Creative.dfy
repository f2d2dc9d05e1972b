/**
 Reversing the Java-to-Bedrock item table for the creative catalogue
 (bedrock/creative.go). The table is a map, walked in no particular order.
 */
module Creative {
  import opened Options
  import opened Text

  datatype Mapping = Mapping(name: string, metadata: nat, runtimeId: int)

  type JavaTable = map<string, Mapping>

  datatype Entry = Entry(javaName: string, mapping: Mapping)

  /** A Bedrock name with its metadata, or the name alone. */
  datatype Key = Exact(name: string, metadata: nat) | NameOnly(name: string)

  function KeyOf(mapping: Mapping, exact: bool): Key {
    if exact then Exact(mapping.name, mapping.metadata) else NameOnly(mapping.name)
  }

  // ----- which Java name wins

  /** Known items first, then the name equal to Bedrock's, then alphabetical order. */
  predicate Preferred(known: set<string>, candidate: string, current: string, bedrockName: string) {
    if (candidate in known) != (current in known) then candidate in known
    else if (candidate == bedrockName) != (current == bedrockName) then candidate == bedrockName
    else Less(candidate, current)
  }

  /** For a fixed Bedrock name the preference is a strict total order on Java names. */
  lemma PreferenceIsStrictTotalOrder(known: set<string>, bedrockName: string, a: string, b: string, c: string)
    ensures !Preferred(known, a, a, bedrockName)
    ensures a != b ==> (Preferred(known, a, b, bedrockName) <==> !Preferred(known, b, a, bedrockName))
    ensures Preferred(known, a, b, bedrockName) && Preferred(known, b, c, bedrockName) ==>
              Preferred(known, a, c, bedrockName)
  {
    LessIsTotal(a, a);
    LessIsTotal(a, b);
    if Less(a, b) && Less(b, c) { LessIsTransitive(a, b, c); }
  }

  // ----- the reverse table

  predicate Competes(table: JavaTable, names: set<string>, exact: bool, java: string, key: Key) {
    java in names && java in table && KeyOf(table[java], exact) == key
  }

  /** Every key some name maps to holds the preferred one of those names, with its own mapping. */
  ghost predicate IsReverse(table: JavaTable, names: set<string>, known: set<string>, exact: bool,
                            out: map<Key, Entry>) {
    && (forall java :: java in names && java in table ==> KeyOf(table[java], exact) in out)
    && forall key :: key in out ==>
         && Competes(table, names, exact, out[key].javaName, key)
         && out[key].mapping == table[out[key].javaName]
         && forall java :: Competes(table, names, exact, java, key) && java != out[key].javaName ==>
              Preferred(known, out[key].javaName, java, key.name)
  }

  /** One pass over the table in an arbitrary order. */
  method ReverseTable(table: JavaTable, known: set<string>, exact: bool) returns (out: map<Key, Entry>)
    ensures IsReverse(table, table.Keys, known, exact, out)
  {
    out := map[];
    var remaining := table.Keys;
    while remaining != {}
      invariant remaining <= table.Keys
      invariant IsReverse(table, table.Keys - remaining, known, exact, out)
      decreases remaining
    {
      var javaName :| javaName in remaining;
      var mapping := table[javaName];
      var key := KeyOf(mapping, exact);
      var done := table.Keys - remaining;
      PassOne(table, done, known, exact, out, javaName);
      if key !in out || Preferred(known, javaName, out[key].javaName, mapping.name) {
        out := out[key := Entry(javaName, mapping)];
      }
      assert table.Keys - (remaining - {javaName}) == done + {javaName};
      remaining := remaining - {javaName};
    }
    assert table.Keys - {} == table.Keys;
  }

  lemma PassOne(table: JavaTable, names: set<string>, known: set<string>, exact: bool, out: map<Key, Entry>,
                javaName: string)
    requires IsReverse(table, names, known, exact, out) && javaName in table && javaName !in names
    ensures var key := KeyOf(table[javaName], exact);
            IsReverse(table, names + {javaName}, known, exact,
              if key !in out || Preferred(known, javaName, out[key].javaName, key.name)
              then out[key := Entry(javaName, table[javaName])] else out)
  {
    var key := KeyOf(table[javaName], exact);
    if key in out {
      var held := out[key].javaName;
      PreferenceIsStrictTotalOrder(known, key.name, javaName, held, held);
      if Preferred(known, javaName, held, key.name) { BetterThanAll(table, names, known, exact, key, held, javaName); }
    }
  }

  /** What is preferred to the best is preferred to all. */
  lemma BetterThanAll(table: JavaTable, names: set<string>, known: set<string>, exact: bool, key: Key, best: string,
                      javaName: string)
    requires forall java :: Competes(table, names, exact, java, key) && java != best ==>
               Preferred(known, best, java, key.name)
    requires Preferred(known, javaName, best, key.name)
    ensures forall java :: Competes(table, names, exact, java, key) ==> Preferred(known, javaName, java, key.name)
  {
    forall java | Competes(table, names, exact, java, key) && java != best
      ensures Preferred(known, javaName, java, key.name)
    {
      PreferenceIsStrictTotalOrder(known, key.name, javaName, best, java);
    }
  }

  /** Which of the names that map to a key wins: a known one when there is any, among those the one
      equal to the Bedrock name, and otherwise the alphabetically first. */
  lemma WinnerExactly(table: JavaTable, known: set<string>, exact: bool, out: map<Key, Entry>, key: Key)
    requires IsReverse(table, table.Keys, known, exact, out) && key in out
    ensures var winner := out[key].javaName;
            && winner in table && KeyOf(table[winner], exact) == key
            && forall java :: java in table && KeyOf(table[java], exact) == key && java != winner ==>
                 && (java in known ==> winner in known)
                 && (winner !in known || java in known ==>
                       java != key.name && (winner == key.name || Less(winner, java)))
  {
    var winner := out[key].javaName;
    forall java | java in table && KeyOf(table[java], exact) == key && java != winner
      ensures Preferred(known, winner, java, key.name)
    {
      assert Competes(table, table.Keys, exact, java, key);
    }
  }

  /** The reverse table does not depend on the order of the walk. */
  lemma ReverseIsUnique(table: JavaTable, known: set<string>, exact: bool, a: map<Key, Entry>, b: map<Key, Entry>)
    requires IsReverse(table, table.Keys, known, exact, a) && IsReverse(table, table.Keys, known, exact, b)
    ensures a == b
  {
    assert forall key :: key in a ==> key in b by {
      forall key | key in a ensures key in b {
        assert Competes(table, table.Keys, exact, a[key].javaName, key);
      }
    }
    assert forall key :: key in b ==> key in a by {
      forall key | key in b ensures key in a {
        assert Competes(table, table.Keys, exact, b[key].javaName, key);
      }
    }
    forall key | key in a && key in b ensures a[key] == b[key] {
      var x, y := a[key].javaName, b[key].javaName;
      PreferenceIsStrictTotalOrder(known, key.name, x, y, x);
      assert Competes(table, table.Keys, exact, x, key) && Competes(table, table.Keys, exact, y, key);
    }
  }

  // ----- from a creative entry to a Java item

  const LIGHT_PREFIX := "minecraft:light_block_"

  predicate AllDigits(s: string) {
    s != [] && forall i :: 0 <= i < |s| ==> '0' <= s[i] <= '9'
  }

  function DigitsValue(s: string): nat
    requires forall i :: 0 <= i < |s| ==> '0' <= s[i] <= '9'
  {
    if s == [] then 0 else 10 * DigitsValue(s[..|s| - 1]) + (s[|s| - 1] - '0') as nat
  }

  /** A decimal number with an optional sign. */
  function ParseInt(s: string): Option<int> {
    if s != [] && (s[0] == '-' || s[0] == '+') then
      if AllDigits(s[1..]) then
        var value: int := DigitsValue(s[1..]);
        Some(if s[0] == '-' then -value else value)
      else None
    else if AllDigits(s) then Some(DigitsValue(s)) else None
  }

  function LightLevel(name: string): Option<int> {
    if !(LIGHT_PREFIX <= name) then None
    else match ParseInt(name[|LIGHT_PREFIX|..])
      case None => None
      case Some(level) => if 0 <= level <= 15 then Some(level) else None
  }

  function Uint16(n: int): nat {
    n % 0x1_0000
  }

  datatype Tables = Tables(byIdentity: map<Key, Entry>, byName: map<Key, Entry>)

  ghost predicate Reverses(table: JavaTable, known: set<string>, tables: Tables) {
    && IsReverse(table, table.Keys, known, true, tables.byIdentity)
    && IsReverse(table, table.Keys, known, false, tables.byName)
  }

  /** The Java item and damage of a creative entry. `durable` are the items that wear out. */
  function CanonicalIdentity(tables: Tables, durable: set<string>, name: string, meta: int): (string, int) {
    if LightLevel(name).Some? then ("minecraft:light", LightLevel(name).value)
    else if name == "minecraft:light_block" then ("minecraft:light", meta)
    else if Exact(name, Uint16(meta)) in tables.byIdentity then
      (tables.byIdentity[Exact(name, Uint16(meta))].javaName, 0)
    else if NameOnly(name) in tables.byName then (tables.byName[NameOnly(name)].javaName, 0)
    else if name in durable then (name, 0)
    else (name, meta)
  }

  predicate IsLight(name: string) {
    LightLevel(name).Some? || name == "minecraft:light_block"
  }

  lemma {:induction false} DecimalReadsBack(n: nat)
    ensures AllDigits(Decimal(n)) && DigitsValue(Decimal(n)) == n
  {
    DecimalSplits(n);
    DigitReadsBack(n % 10);
    var s := Decimal(n);
    if n < 10 {
      assert s[..|s| - 1] == [];
    } else {
      DecimalReadsBack(n / 10);
      assert forall i :: 0 <= i < |s| - 1 ==> s[i] == s[..|s| - 1][i];
    }
  }

  lemma DigitReadsBack(d: nat)
    requires d < 10
    ensures '0' <= Digit(d) <= '9' && (Digit(d) - '0') as nat == d
  {
    assert d == 0 || d == 1 || d == 2 || d == 3 || d == 4 || d == 5 || d == 6 || d == 7 || d == 8 || d == 9;
  }

  /** A light block is Java's light with the level in its name, from 0 to 15, whatever the metadata;
      the plain one carries its level as metadata. No other level is a light block. */
  lemma LightLevelsReadBack(tables: Tables, durable: set<string>, level: nat, meta: int)
    ensures level <= 15 ==>
              CanonicalIdentity(tables, durable, LIGHT_PREFIX + Decimal(level), meta) == ("minecraft:light", level)
    ensures IsLight(LIGHT_PREFIX + Decimal(level)) <==> level <= 15
    ensures CanonicalIdentity(tables, durable, "minecraft:light_block", meta) == ("minecraft:light", meta)
  {
    DecimalReadsBack(level);
    LightByNumber(Decimal(level), level);
  }

  /** A plus sign before the level changes nothing, and a minus sign leaves only level 0 a light block. */
  lemma SignedLightLevels(tables: Tables, durable: set<string>, level: nat, meta: int)
    ensures level <= 15 ==>
              CanonicalIdentity(tables, durable, LIGHT_PREFIX + ("+" + Decimal(level)), meta) == ("minecraft:light", level)
    ensures IsLight(LIGHT_PREFIX + ("+" + Decimal(level))) <==> level <= 15
    ensures IsLight(LIGHT_PREFIX + ("-" + Decimal(level))) <==> level == 0
  {
    var below: int := 0 - level;
    SignedReadsBack('+', level);
    SignedReadsBack('-', level);
    LightByNumber("+" + Decimal(level), level);
    LightByNumber("-" + Decimal(level), below);
  }

  lemma SignedReadsBack(sign: char, n: nat)
    requires sign == '+' || sign == '-'
    ensures ParseInt([sign] + Decimal(n)).Some?
    ensures ParseInt([sign] + Decimal(n)).value == if sign == '+' then n else 0 - n
  {
    DecimalReadsBack(n);
    assert ([sign] + Decimal(n))[1..] == Decimal(n);
  }

  lemma LightByNumber(number: string, level: int)
    requires ParseInt(number) == Some(level)
    ensures LightLevel(LIGHT_PREFIX + number) == if 0 <= level <= 15 then Some(level) else None
    ensures LIGHT_PREFIX + number != "minecraft:light_block"
  {
    assert (LIGHT_PREFIX + number)[|LIGHT_PREFIX|..] == number;
    assert |LIGHT_PREFIX| > |"minecraft:light_block"|;
  }

  /** Outside the light blocks, an entry resolves to a Java item exactly when some Java item maps
      to its Bedrock name; that item's own mapping leads back to the name, and to the metadata
      too when any Java item has both, and no such item is preferred to it. Without one the name
      stands for itself, with the metadata as damage unless the item wears out. */
  lemma IdentityLeadsBack(table: JavaTable, known: set<string>, tables: Tables, durable: set<string>,
                          name: string, meta: int)
    requires Reverses(table, known, tables) && !IsLight(name)
    ensures var (java, damage) := CanonicalIdentity(tables, durable, name, meta);
            var exact := exists j :: j in table && table[j].name == name && table[j].metadata == Uint16(meta);
            && (NameOnly(name) in tables.byName <==> exists j :: j in table && table[j].name == name)
            && (NameOnly(name) in tables.byName ==>
                  java in table && table[java].name == name && damage == 0)
            && (exact ==> table[java].metadata == Uint16(meta))
            && (forall j :: j in table && j != java && table[j].name == name
                            && (exact ==> table[j].metadata == Uint16(meta)) ==>
                  Preferred(known, java, j, name))
            && (NameOnly(name) !in tables.byName ==> java == name && damage == if name in durable then 0 else meta)
  {
    KeyIsHeld(table, known, true, tables.byIdentity, Exact(name, Uint16(meta)));
    KeyIsHeld(table, known, false, tables.byName, NameOnly(name));
  }

  /** A key is in a reverse table exactly when some item maps to it, and it leads to the preferred one. */
  lemma KeyIsHeld(table: JavaTable, known: set<string>, exact: bool, out: map<Key, Entry>, key: Key)
    requires IsReverse(table, table.Keys, known, exact, out)
    ensures key in out <==> exists java :: java in table && KeyOf(table[java], exact) == key
    ensures key in out ==>
              var best := out[key].javaName;
              && best in table && KeyOf(table[best], exact) == key
              && forall java :: java in table && KeyOf(table[java], exact) == key && java != best ==>
                   Preferred(known, best, java, key.name)
  {
    if key in out {
      assert Competes(table, table.Keys, exact, out[key].javaName, key);
      forall java | java in table && KeyOf(table[java], exact) == key && java != out[key].javaName
        ensures Preferred(known, out[key].javaName, java, key.name)
      {
        assert Competes(table, table.Keys, exact, java, key);
      }
    }
  }

  /** Whatever the two walks that built the tables, an entry resolves to the same item. */
  lemma IdentityIsDeterministic(table: JavaTable, known: set<string>, a: Tables, b: Tables, durable: set<string>,
                                name: string, meta: int)
    requires Reverses(table, known, a) && Reverses(table, known, b)
    ensures CanonicalIdentity(a, durable, name, meta) == CanonicalIdentity(b, durable, name, meta)
  {
    ReverseIsUnique(table, known, true, a.byIdentity, b.byIdentity);
    ReverseIsUnique(table, known, false, a.byName, b.byName);
  }
}
