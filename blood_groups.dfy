// The eight ABO/Rh blood groups, their labels ("A+") as requests and donors
// store them, and the inventory keys ("A_pos") hospitals store stock under.
// Controllers and pages turn one into the other with two first-occurrence
// `String.replace` calls, modelled here exactly.
module BloodGroups {
  import opened Common

  datatype BloodGroup = APos | ANeg | BPos | BNeg | ABPos | ABNeg | OPos | ONeg

  /** The order the inventory sub-document and the pages list the groups in. */
  const AllGroups: seq<BloodGroup> := [APos, ANeg, BPos, BNeg, ABPos, ABNeg, OPos, ONeg]

  /** The enum value stored in `bloodGroup` fields. */
  function Label(g: BloodGroup): string
  {
    match g
    case APos => "A+"
    case ANeg => "A-"
    case BPos => "B+"
    case BNeg => "B-"
    case ABPos => "AB+"
    case ABNeg => "AB-"
    case OPos => "O+"
    case ONeg => "O-"
  }

  /** The path of the group's stock inside `bloodInventory`. */
  function Key(g: BloodGroup): string
  {
    match g
    case APos => "A_pos"
    case ANeg => "A_neg"
    case BPos => "B_pos"
    case BNeg => "B_neg"
    case ABPos => "AB_pos"
    case ABNeg => "AB_neg"
    case OPos => "O_pos"
    case ONeg => "O_neg"
  }

  /** The eight inventory keys, in schema order. */
  const InventoryKeys: seq<string> := ["A_pos", "A_neg", "B_pos", "B_neg", "AB_pos", "AB_neg", "O_pos", "O_neg"]

  /** The enum check of a `bloodGroup` field: exact match against the eight labels. */
  function ParseLabel(s: string): (r: Option<BloodGroup>)
    ensures r.Some? ==> Label(r.value) == s
  {
    if s == "A+" then Some(APos)
    else if s == "A-" then Some(ANeg)
    else if s == "B+" then Some(BPos)
    else if s == "B-" then Some(BNeg)
    else if s == "AB+" then Some(ABPos)
    else if s == "AB-" then Some(ABNeg)
    else if s == "O+" then Some(OPos)
    else if s == "O-" then Some(ONeg)
    else None
  }

  /** The label-to-key conversion: `label.replace('+', '_pos').replace('-', '_neg')`. */
  function KeyOfLabel(name: string): string
  {
    ReplaceFirst(ReplaceFirst(name, "+", "_pos"), "-", "_neg")
  }

  /** The key-to-label conversion of the pages: `key.replace('_pos', '+').replace('_neg', '-')`. */
  function LabelOfKey(key: string): string
  {
    ReplaceFirst(ReplaceFirst(key, "_pos", "+"), "_neg", "-")
  }

  /** Every label parses back to its group, and only labels parse. */
  lemma ParseLabelExact(g: BloodGroup, s: string)
    ensures ParseLabel(Label(g)) == Some(g)
    ensures ParseLabel(s) == Some(g) <==> s == Label(g)
  {
  }

  /** The label and key of a group are its letters followed by the Rh sign or suffix. */
  function Letters(g: BloodGroup): (r: string)
    ensures '+' !in r && '-' !in r && '_' !in r
  {
    match g
    case APos => "A" case ANeg => "A"
    case BPos => "B" case BNeg => "B"
    case ABPos => "AB" case ABNeg => "AB"
    case OPos => "O" case ONeg => "O"
  }

  predicate Positive(g: BloodGroup) { g.APos? || g.BPos? || g.ABPos? || g.OPos? }

  lemma LabelShape(g: BloodGroup)
    ensures Label(g) == Letters(g) + (if Positive(g) then "+" else "-")
    ensures Key(g) == Letters(g) + (if Positive(g) then "_pos" else "_neg")
  {
  }

  /** The replace chain turns every group's label into exactly its inventory key. */
  lemma KeyOfLabelIsKey(g: BloodGroup)
    ensures KeyOfLabel(Label(g)) == Key(g)
  {
    LabelShape(g);
    var a := Letters(g);
    if Positive(g) {
      ReplaceAfter(a, "+", "", "_pos");
      assert a + "+" + "" == Label(g);
      assert a + "_pos" + "" == Key(g);
      ReplaceAbsent(Key(g), "-", "_neg");
    } else {
      assert '+' !in Label(g);
      ReplaceAbsent(Label(g), "+", "_pos");
      ReplaceAfter(a, "-", "", "_neg");
      assert a + "-" + "" == Label(g);
      assert a + "_neg" + "" == Key(g);
    }
  }

  /** The pages' reverse mapping turns every inventory key back into the group's label. */
  lemma LabelOfKeyIsLabel(g: BloodGroup)
    ensures LabelOfKey(Key(g)) == Label(g)
  {
    LabelShape(g);
    var a := Letters(g);
    if Positive(g) {
      ReplaceAfter(a, "_pos", "", "+");
      assert a + "_pos" + "" == Key(g);
      assert a + "+" + "" == Label(g);
      assert 'g' !in Label(g);
      ReplaceAbsent(Label(g), "_neg", "-");
    } else {
      assert 's' !in Key(g);
      ReplaceAbsent(Key(g), "_pos", "+");
      ReplaceAfter(a, "_neg", "", "-");
      assert a + "_neg" + "" == Key(g);
      assert a + "-" + "" == Label(g);
    }
  }

  /** Label-to-key is injective on the eight labels and lands on a schema key. */
  lemma KeysDistinct(g: BloodGroup, h: BloodGroup)
    ensures Key(g) in InventoryKeys
    ensures Key(g) == Key(h) <==> g == h
    ensures Label(g) == Label(h) <==> g == h
  {
  }

  /** Every schema key belongs to a group. */
  lemma InventoryKeysCovered(k: string)
    requires k in InventoryKeys
    ensures exists g :: Key(g) == k
  {
    if k == "A_pos" { assert Key(APos) == k; }
    else if k == "A_neg" { assert Key(ANeg) == k; }
    else if k == "B_pos" { assert Key(BPos) == k; }
    else if k == "B_neg" { assert Key(BNeg) == k; }
    else if k == "AB_pos" { assert Key(ABPos) == k; }
    else if k == "AB_neg" { assert Key(ABNeg) == k; }
    else if k == "O_pos" { assert Key(OPos) == k; }
    else { assert Key(ONeg) == k; }
  }

  /**
   * The conversion invents no stock: a string it maps onto a schema key is
   * one of the eight labels or already that key. Malformed groups such as
   * "a+" or "AB" address no counter.
   */
  lemma KeyOfBadLabel(s: string)
    ensures KeyOfLabel(s) in InventoryKeys ==> ParseLabel(s).Some? || s in InventoryKeys
  {
    var t := ReplaceFirst(s, "+", "_pos");
    var u := ReplaceFirst(t, "-", "_neg");
    if u in InventoryKeys {
      InventoryKeysCovered(u);
      var g :| Key(g) == u;
      if '-' in t {
        MinusReplaced(s, t, g);
        ParseLabelExact(g, s);
      } else {
        ReplaceAbsent(t, "-", "_neg");
        if '+' in s {
          PlusReplaced(s, g);
          ParseLabelExact(g, s);
        } else {
          ReplaceAbsent(s, "+", "_pos");
        }
      }
    }
  }

  /** A key reached by replacing a minus sign is a negative group's, from its label. */
  lemma MinusReplaced(s: string, t: string, g: BloodGroup)
    requires t == ReplaceFirst(s, "+", "_pos") && '-' in t && ReplaceFirst(t, "-", "_neg") == Key(g)
    ensures s == Label(g)
  {
    var j := ReplaceChar(t, '-', "_neg");
    SuffixAt(g, t[..j], t[j + 1..], "_neg");
    LabelShape(g);
    assert t == t[..j] + "-" + t[j + 1..];
    if '+' in s {
      var i := ReplaceChar(s, '+', "_pos");
      assert false;
    }
    ReplaceAbsent(s, "+", "_pos");
  }

  /** A key reached by replacing a plus sign is a positive group's, from its label. */
  lemma PlusReplaced(s: string, g: BloodGroup)
    requires '+' in s && ReplaceFirst(s, "+", "_pos") == Key(g)
    ensures s == Label(g)
  {
    var i := ReplaceChar(s, '+', "_pos");
    SuffixAt(g, s[..i], s[i + 1..], "_pos");
    LabelShape(g);
    assert s == s[..i] + "+" + s[i + 1..];
  }

  /** A key that reads as `a`, a four-character suffix and `b` has the group's letters as `a` and nothing after. */
  lemma SuffixAt(g: BloodGroup, a: string, b: string, sfx: string)
    requires |sfx| == 4 && sfx[0] == '_' && Key(g) == a + sfx + b
    ensures a == Letters(g) && b == [] && (sfx == "_pos" <==> Positive(g))
  {
    LabelShape(g);
    var k := Key(g);
    var l := Letters(g);
    assert k[|a|] == '_';
    assert |a| <= |l| by {
      assert |k| == |l| + 4;
    }
    assert a == k[..|a|] == l;
    assert b == [];
    assert k[|l|..] == sfx && k[|l|..] == (if Positive(g) then "_pos" else "_neg");
  }

  /**
   * Names that every JavaScript object answers with a function, so that the
   * inventory object's `[key]` is truthy for them although they are no
   * counters: the members of `Object.prototype`, and the `toObject` and
   * `toJSON` that Mongoose gives a nested path.
   */
  const ObjectMembers: set<string> := {
    "constructor", "__proto__", "toString", "toLocaleString", "valueOf", "hasOwnProperty", "isPrototypeOf",
    "propertyIsEnumerable", "__defineGetter__", "__defineSetter__", "__lookupGetter__", "__lookupSetter__",
    "toObject", "toJSON"}

  /** No object member is a counter key. */
  lemma ObjectMembersNoCounters(key: string)
    ensures key in ObjectMembers ==> key !in InventoryKeys
  {
  }

  /**
   * A string that upper-cases to a label ends in its sign, so its key ends
   * in "_pos" or "_neg": no object member is reached from a blood group the
   * request schema accepts.
   */
  lemma UpperLabelNoMember(s: string)
    ensures KeyOfLabel(s) in ObjectMembers ==> ParseLabel(ToUpper(s)).None?
  {
    if ParseLabel(ToUpper(s)).Some? {
      var a := UpperLabelShape(s, ParseLabel(ToUpper(s)).value);
      var k := KeyOfLabel(s);
      if s[|s| - 1] == '+' {
        SignedKey(a, '+', "_pos");
      } else {
        SignedKey(a, '-', "_neg");
      }
      assert k[|k| - 4..] == "_pos" || k[|k| - 4..] == "_neg";
      MembersUnsigned(k);
    }
  }

  /** A string that upper-cases to a group's label is a sign-free prefix followed by that sign. */
  lemma UpperLabelShape(s: string, g: BloodGroup) returns (a: string)
    requires ToUpper(s) == Label(g)
    ensures s == a + [s[|s| - 1]] && '+' !in a && '-' !in a
    ensures s[|s| - 1] == (if Positive(g) then '+' else '-')
  {
    LabelShape(g);
    var u := ToUpper(s);
    var n := |s| - 1;
    a := s[..n];
    assert s == a + [s[n]];
    assert u[n] == UpperChar(s[n]);
    forall i | 0 <= i < n
      ensures a[i] != '+' && a[i] != '-'
    {
      assert u[i] == UpperChar(a[i]) && u[i] in Letters(g);
    }
  }

  /** The key of a sign-free prefix followed by a sign is the prefix followed by the sign's suffix. */
  lemma SignedKey(a: string, c: char, sfx: string)
    requires '+' !in a && '-' !in a
    requires (c == '+' && sfx == "_pos") || (c == '-' && sfx == "_neg")
    ensures KeyOfLabel(a + [c]) == a + sfx
  {
    if c == '+' {
      ReplaceAfter(a, "+", "", "_pos");
      assert a + "+" + "" == a + [c];
      assert a + "_pos" + "" == a + sfx;
      ReplaceAbsent(a + sfx, "-", "_neg");
    } else {
      ReplaceAbsent(a + [c], "+", "_pos");
      ReplaceAfter(a, "-", "", "_neg");
      assert a + "-" + "" == a + [c];
      assert a + "_neg" + "" == a + sfx;
    }
  }

  /** No object member ends in a sign suffix. */
  lemma MembersUnsigned(k: string)
    requires |k| >= 4 && (k[|k| - 4..] == "_pos" || k[|k| - 4..] == "_neg")
    ensures k !in ObjectMembers
  {
  }
}
