/** The carbon-to-nitrogen part of the profile view: reading a table ratio
    such as "40-80:1", the list of materials being edited, and the weighted
    average the calculator displays. A JavaScript number is an `Option<real>`
    whose `None` is NaN; `Number` and `parseFloat` are the oracles `number`
    and `num`, and the material table is a parameter. */
module CarbonNitrogen {
  import opened Wrappers
  import opened Text
  import opened Decimal
  import opened Records

  // ---- `parseCNRatio` ----

  /** NaN-propagating addition. */
  function Plus(a: Option<real>, b: Option<real>): Option<real> {
    if a.Some? && b.Some? then Some(a.value + b.value) else None
  }

  /** NaN-propagating multiplication. */
  function Times(a: Option<real>, b: real): Option<real> {
    if a.Some? then Some(a.value * b) else None
  }

  /** `parseCNRatio`: the part before ':'; a range "X-Y" gives its midpoint. */
  function ParseCNRatio(number: string -> Option<real>, ratio: string): Option<real> {
    var c := Split(ratio, ':')[0];
    if '-' in c then
      var range := Split(c, '-');
      SplitAtSeparator(c, '-');
      var low := number(range[0]);
      var high := number(range[1]);
      if low.Some? && high.Some? then Some((low.value + high.value) / 2.0) else None
    else number(c)
  }

  /** "X-Y:1" reads as the midpoint of X and Y. */
  lemma ParseCNRatioRange(number: string -> Option<real>, x: string, y: string)
    requires ':' !in x && ':' !in y && '-' !in x && '-' !in y
    ensures ParseCNRatio(number, x + "-" + y + ":1") ==
              if number(x).Some? && number(y).Some? then Some((number(x).value + number(y).value) / 2.0) else None
  {
    var c := x + ['-'] + y;
    assert x + "-" + y + ":1" == c + [':'] + "1";
    SplitPrefix(c, "1", ':');
    assert Split(x + "-" + y + ":1", ':')[0] == c;
    assert c[|x|] == '-';
    SplitPrefix(x, y, '-');
    assert Split(c, '-') == [x, y];
  }

  /** "Z:1" reads as Z. */
  lemma ParseCNRatioSingle(number: string -> Option<real>, z: string)
    requires ':' !in z && '-' !in z
    ensures ParseCNRatio(number, z + ":1") == number(z)
  {
    assert z + ":1" == z + [':'] + "1";
    SplitPrefix(z, "1", ':');
  }

  // ---- The material table ----

  datatype MaterialKind = CarbonRich | NitrogenRich

  /** A row of `cnRatioMaterials`. */
  datatype CNMaterial = CNMaterial(name: string, ratio: string, kind: MaterialKind)

  /** `cnRatioMaterials.find(m => m.name === name)`: the first row of that name. */
  function FindMaterial(table: seq<CNMaterial>, name: string): (r: Option<CNMaterial>)
    ensures r.None? <==> forall i :: 0 <= i < |table| ==> table[i].name != name
    ensures r.Some? ==> exists i :: 0 <= i < |table| && table[i] == r.value && r.value.name == name &&
                                    forall j :: 0 <= j < i ==> table[j].name != name
  {
    if table == [] then None
    else if table[0].name == name then Some(table[0])
    else
      var r := FindMaterial(table[1..], name);
      assert forall i :: 1 <= i < |table| ==> table[i] == table[1..][i - 1];
      if r.Some? then
        ghost var i :| 0 <= i < |table[1..]| && table[1..][i] == r.value && r.value.name == name &&
                       forall j :: 0 <= j < i ==> table[1..][j].name != name;
        assert table[i + 1] == r.value;
        r
      else r
  }

  // ---- The list of materials being edited ----

  function MaterialName(m: MaterialInput): string { m.name }

  predicate HasMaterial(ms: seq<MaterialInput>, name: string) {
    exists i :: 0 <= i < |ms| && ms[i].name == name
  }

  predicate UniqueNames(ms: seq<MaterialInput>) {
    UniqueIds(ms, MaterialName)
  }

  /** Every quantity is a number, none negative. */
  predicate NumericQuantities(ms: seq<MaterialInput>) {
    forall i :: 0 <= i < |ms| ==> ms[i].quantity.Some? && ms[i].quantity.value >= 0.0
  }

  /** The entries named `name` with `q` added to their quantity, the others kept. */
  function AddToNamed(ms: seq<MaterialInput>, name: string, q: Option<real>): (r: seq<MaterialInput>)
    ensures |r| == |ms|
    ensures forall i :: 0 <= i < |ms| && ms[i].name == name ==> r[i] == MaterialInput(name, Plus(ms[i].quantity, q))
    ensures forall i :: 0 <= i < |ms| && ms[i].name != name ==> r[i] == ms[i]
  {
    if ms == [] then []
    else [if ms[0].name == name then ms[0].(quantity := Plus(ms[0].quantity, q)) else ms[0]] + AddToNamed(ms[1..], name, q)
  }

  /** `handleAddMaterialToList` as written: `parseFloat(currentQuantity) <= 0`
      is false for NaN, so a quantity that is not a number gets through. */
  function AddMaterialAsWritten(num: string -> Option<real>, ms: seq<MaterialInput>, name: string, quantity: string): seq<MaterialInput> {
    var q := num(quantity);
    if name == "" || (q.Some? && q.value <= 0.0) then ms
    else if HasMaterial(ms, name) then AddToNamed(ms, name, q)
    else ms + [MaterialInput(name, q)]
  }

  /** `handleAddMaterialToList` as its error message means it: a material and
      a valid, positive quantity are required. */
  function AddMaterial(num: string -> Option<real>, ms: seq<MaterialInput>, name: string, quantity: string): seq<MaterialInput> {
    var q := num(quantity);
    if name == "" || q.None? || q.value <= 0.0 then ms
    else if HasMaterial(ms, name) then AddToNamed(ms, name, q)
    else ms + [MaterialInput(name, q)]
  }

  /** A quantity that reads as NaN (the empty field, say) gets a NaN
      quantity into the list: appended under a new name, or turning the
      listed quantity into NaN. */
  lemma AddMaterialAsWrittenAddsNaN(num: string -> Option<real>, ms: seq<MaterialInput>, name: string, quantity: string)
    requires name != "" && num(quantity).None?
    ensures AddMaterialAsWritten(num, [], name, quantity) == [MaterialInput(name, None)]
    ensures !NumericQuantities(AddMaterialAsWritten(num, ms, name, quantity))
  {
    assert !HasMaterial([], name);
    var r := AddMaterialAsWritten(num, ms, name, quantity);
    if HasMaterial(ms, name) {
      var i :| 0 <= i < |ms| && ms[i].name == name;
      assert r[i].quantity.None?;
    } else {
      assert r[|ms|].quantity.None?;
    }
  }

  /** Without a name or a positive quantity, nothing is added. */
  lemma AddMaterialRejects(num: string -> Option<real>, ms: seq<MaterialInput>, name: string, quantity: string)
    ensures AddMaterial(num, ms, name, quantity) == ms <==>
              name == "" || num(quantity).None? || num(quantity).value <= 0.0 ||
              (HasMaterial(ms, name) && forall i :: 0 <= i < |ms| && ms[i].name == name ==> Plus(ms[i].quantity, num(quantity)) == ms[i].quantity)
  {
    var q := num(quantity);
    var r := AddMaterial(num, ms, name, quantity);
    if name != "" && q.Some? && q.value > 0.0 {
      if HasMaterial(ms, name) {
        if r == ms {
          forall i | 0 <= i < |ms| && ms[i].name == name ensures Plus(ms[i].quantity, q) == ms[i].quantity {
            assert r[i] == ms[i];
          }
        } else {
          var k :| 0 <= k < |ms| && r[k] != ms[k];
          assert ms[k].name == name;
        }
      } else {
        assert |r| == |ms| + 1;
      }
    }
  }

  /** An accepted material already listed has its quantity increased in
      place; a new one is appended. */
  lemma AddMaterialAccepts(num: string -> Option<real>, ms: seq<MaterialInput>, name: string, quantity: string)
    requires name != "" && num(quantity).Some? && num(quantity).value > 0.0
    ensures var r := AddMaterial(num, ms, name, quantity);
            var q := num(quantity);
            (HasMaterial(ms, name) ==>
               (|r| == |ms| &&
                (forall i :: 0 <= i < |ms| && ms[i].name == name ==> r[i] == MaterialInput(name, Plus(ms[i].quantity, q))) &&
                (forall i :: 0 <= i < |ms| && ms[i].name != name ==> r[i] == ms[i]))) &&
            (!HasMaterial(ms, name) ==> r == ms + [MaterialInput(name, q)])
  {
  }

  /** Adding keeps the names unique and the quantities numbers. */
  lemma AddMaterialKeepsList(num: string -> Option<real>, ms: seq<MaterialInput>, name: string, quantity: string)
    requires UniqueNames(ms) && NumericQuantities(ms)
    ensures UniqueNames(AddMaterial(num, ms, name, quantity))
    ensures NumericQuantities(AddMaterial(num, ms, name, quantity))
  {
    var r := AddMaterial(num, ms, name, quantity);
    if r != ms && !HasMaterial(ms, name) {
      assert forall i :: 0 <= i < |ms| ==> r[i] == ms[i];
    }
  }

  /** `handleRemoveMaterialFromList`: `filter(m => m.name !== materialName)`. */
  function RemoveMaterial(ms: seq<MaterialInput>, name: string): seq<MaterialInput> {
    RemoveKey(ms, MaterialName, name)
  }

  /** Removing deletes exactly the entries of that name; the others keep
      their order, and a list of unique names loses one entry at most. */
  lemma RemoveMaterialSpec(ms: seq<MaterialInput>, name: string, others: seq<MaterialInput>)
    ensures !HasMaterial(RemoveMaterial(ms, name), name)
    ensures forall i :: 0 <= i < |ms| && ms[i].name != name ==> ms[i] in RemoveMaterial(ms, name)
    ensures RemoveMaterial(ms + others, name) == RemoveMaterial(ms, name) + RemoveMaterial(others, name)
    ensures UniqueNames(ms) && HasMaterial(ms, name) ==> |RemoveMaterial(ms, name)| == |ms| - 1
  {
    RemoveKeyAppend(ms, others, MaterialName, name);
    if UniqueNames(ms) && HasMaterial(ms, name) {
      var i :| 0 <= i < |ms| && ms[i].name == name;
      assert MaterialName(ms[i]) == name;
      RemoveUniqueKey(ms, MaterialName, name);
    }
  }

  /** Removing a material just added under a new name gives the list back. */
  lemma RemoveUndoesAdd(num: string -> Option<real>, ms: seq<MaterialInput>, name: string, quantity: string)
    requires !HasMaterial(ms, name)
    ensures RemoveMaterial(AddMaterial(num, ms, name, quantity), name) == RemoveMaterial(ms, name) == ms
  {
    assert forall i :: 0 <= i < |ms| ==> MaterialName(ms[i]) != name;
    RemoveAbsentKey(ms, MaterialName, name);
    var q := num(quantity);
    if name != "" && q.Some? && q.value > 0.0 {
      RemoveKeyAppend(ms, [MaterialInput(name, q)], MaterialName, name);
      assert RemoveKey([MaterialInput(name, q)], MaterialName, name) == [];
    }
  }

  /** `isNaN(q) || q < 0 ? 0 : q`. */
  function Clamp(q: Option<real>): (r: Option<real>)
    ensures r.Some? && r.value >= 0.0
    ensures q.Some? && q.value >= 0.0 ==> r == q
    ensures q.None? || q.value < 0.0 ==> r == Some(0.0)
  {
    if q.None? || q.value < 0.0 then Some(0.0) else q
  }

  /** `handleMaterialQuantityChange`: the named entries take the clamped quantity. */
  function SetQuantity(num: string -> Option<real>, ms: seq<MaterialInput>, name: string, quantity: string): (r: seq<MaterialInput>)
    ensures |r| == |ms|
    ensures forall i :: 0 <= i < |ms| && ms[i].name == name ==> r[i] == MaterialInput(name, Clamp(num(quantity)))
    ensures forall i :: 0 <= i < |ms| && ms[i].name != name ==> r[i] == ms[i]
  {
    var q := Clamp(num(quantity));
    seq(|ms|, i requires 0 <= i < |ms| => if ms[i].name == name then ms[i].(quantity := q) else ms[i])
  }

  /** Setting a quantity keeps the names and leaves every quantity a number
      that is not negative; setting it again to the same text changes nothing. */
  lemma SetQuantityKeepsList(num: string -> Option<real>, ms: seq<MaterialInput>, name: string, quantity: string)
    requires NumericQuantities(ms)
    ensures forall i :: 0 <= i < |ms| ==> SetQuantity(num, ms, name, quantity)[i].name == ms[i].name
    ensures NumericQuantities(SetQuantity(num, ms, name, quantity))
    ensures SetQuantity(num, SetQuantity(num, ms, name, quantity), name, quantity) == SetQuantity(num, ms, name, quantity)
  {
    var r := SetQuantity(num, ms, name, quantity);
    var rr := SetQuantity(num, r, name, quantity);
    assert forall i :: 0 <= i < |ms| ==> rr[i] == r[i];
  }

  // ---- `calculateAndSetOverallCNRatio` ----

  /** A material counts when the table has it and its quantity is positive. */
  predicate Contributes(table: seq<CNMaterial>, m: MaterialInput) {
    FindMaterial(table, m.name).Some? && m.quantity.Some? && m.quantity.value > 0.0
  }

  /** The C value the table gives a material it has. */
  function CValue(number: string -> Option<real>, table: seq<CNMaterial>, m: MaterialInput): Option<real>
    requires FindMaterial(table, m.name).Some?
  {
    ParseCNRatio(number, FindMaterial(table, m.name).value.ratio)
  }

  /** `totalCarbon` and `totalNitrogen` after the `forEach` over `ms`. */
  function Totals(number: string -> Option<real>, table: seq<CNMaterial>, ms: seq<MaterialInput>): (Option<real>, real) {
    if ms == [] then (Some(0.0), 0.0)
    else
      var (carbon, nitrogen) := Totals(number, table, ms[..|ms| - 1]);
      var m := ms[|ms| - 1];
      if Contributes(table, m) then
        (Plus(carbon, Times(CValue(number, table, m), m.quantity.value)), nitrogen + m.quantity.value)
      else (carbon, nitrogen)
  }

  /** What the calculator shows, before formatting. */
  datatype CNOutcome = NoMaterials | NoNitrogen | Ratio(value: Option<real>)

  function Outcome(number: string -> Option<real>, table: seq<CNMaterial>, ms: seq<MaterialInput>): CNOutcome {
    if ms == [] then NoMaterials
    else
      var (carbon, nitrogen) := Totals(number, table, ms);
      if nitrogen == 0.0 then NoNitrogen
      else Ratio(if carbon.Some? then Some(carbon.value / nitrogen) else None)
  }

  /** `calculatedDisplayRatio`: "", the N/A text, or `` `${finalRatio.toFixed(1)}:1` ``. */
  function Display(huge: real -> string, o: CNOutcome): string {
    match o
    case NoMaterials => ""
    case NoNitrogen => "N/A (Nitr\U{F3}geno es 0)"
    case Ratio(v) => (if v.Some? then ToFixed(huge, v.value, 1) else "NaN") + ":1"
  }

  /** The calculation's loop, specified by `Totals`. */
  method CalculateCNRatio(number: string -> Option<real>, huge: real -> string, table: seq<CNMaterial>, materials: seq<MaterialInput>)
    returns (display: string)
    ensures display == Display(huge, Outcome(number, table, materials))
  {
    if |materials| == 0 {
      return "";
    }
    var totalCarbon: Option<real> := Some(0.0);
    var totalNitrogen := 0.0;
    var i := 0;
    while i < |materials|
      invariant 0 <= i <= |materials|
      invariant (totalCarbon, totalNitrogen) == Totals(number, table, materials[..i])
    {
      var item := materials[i];
      var materialDetails := FindMaterial(table, item.name);
      if materialDetails.Some? && item.quantity.Some? && item.quantity.value > 0.0 {
        var cValue := ParseCNRatio(number, materialDetails.value.ratio);
        totalCarbon := Plus(totalCarbon, Times(cValue, item.quantity.value));
        totalNitrogen := totalNitrogen + item.quantity.value;
      }
      assert materials[..i + 1][..i] == materials[..i];
      i := i + 1;
    }
    assert materials[..i] == materials;
    if totalNitrogen == 0.0 {
      return "N/A (Nitr\U{F3}geno es 0)";
    }
    var finalRatio := if totalCarbon.Some? then Some(totalCarbon.value / totalNitrogen) else None;
    display := (if finalRatio.Some? then ToFixed(huge, finalRatio.value, 1) else "NaN") + ":1";
  }

  /** The nitrogen total is the sum of the contributing quantities: never
      negative, and zero exactly when no material contributes. */
  lemma {:induction false} NitrogenTotal(number: string -> Option<real>, table: seq<CNMaterial>, ms: seq<MaterialInput>)
    ensures Totals(number, table, ms).1 >= 0.0
    ensures Totals(number, table, ms).1 == 0.0 <==> forall i :: 0 <= i < |ms| ==> !Contributes(table, ms[i])
  {
    if ms != [] {
      var prefix := ms[..|ms| - 1];
      NitrogenTotal(number, table, prefix);
      assert forall i :: 0 <= i < |prefix| ==> prefix[i] == ms[i];
    }
  }

  lemma ScaleBounds(lo: real, c: real, hi: real, q: real)
    requires q > 0.0 && lo <= c <= hi
    ensures lo * q <= c * q <= hi * q
  {
  }

  lemma DivideBounds(lo: real, c: real, hi: real, n: real)
    requires n > 0.0 && lo * n <= c <= hi * n
    ensures lo <= c / n <= hi
  {
    assert c / n * n == c;
  }

  /** When the table gives every contributing material a C value between
      `lo` and `hi`, the carbon total is a number between `lo` and `hi`
      times the nitrogen total. */
  lemma {:induction false} CarbonTotalBounds(number: string -> Option<real>, table: seq<CNMaterial>, ms: seq<MaterialInput>, lo: real, hi: real)
    requires forall i :: 0 <= i < |ms| && Contributes(table, ms[i]) ==>
               CValue(number, table, ms[i]).Some? && lo <= CValue(number, table, ms[i]).value <= hi
    ensures Totals(number, table, ms).0.Some?
    ensures lo * Totals(number, table, ms).1 <= Totals(number, table, ms).0.value <= hi * Totals(number, table, ms).1
  {
    if ms != [] {
      var prefix := ms[..|ms| - 1];
      assert forall i :: 0 <= i < |prefix| ==> prefix[i] == ms[i];
      CarbonTotalBounds(number, table, prefix, lo, hi);
      var m := ms[|ms| - 1];
      if Contributes(table, m) {
        ScaleBounds(lo, CValue(number, table, m).value, hi, m.quantity.value);
      }
    }
  }

  /** The ratio is a weighted average: with some material contributing and
      the table's C values between `lo` and `hi`, so is the ratio. */
  lemma RatioBetween(number: string -> Option<real>, table: seq<CNMaterial>, ms: seq<MaterialInput>, lo: real, hi: real)
    requires exists i :: 0 <= i < |ms| && Contributes(table, ms[i])
    requires forall i :: 0 <= i < |ms| && Contributes(table, ms[i]) ==>
               CValue(number, table, ms[i]).Some? && lo <= CValue(number, table, ms[i]).value <= hi
    ensures Outcome(number, table, ms).Ratio? && Outcome(number, table, ms).value.Some?
    ensures lo <= Outcome(number, table, ms).value.value <= hi
  {
    NitrogenTotal(number, table, ms);
    CarbonTotalBounds(number, table, ms, lo, hi);
    var (c, n) := Totals(number, table, ms);
    DivideBounds(lo, c.value, hi, n);
  }

  /** No materials show nothing; materials none of which contributes show the N/A text. */
  lemma OutcomeWithoutContribution(number: string -> Option<real>, table: seq<CNMaterial>, ms: seq<MaterialInput>)
    ensures Outcome(number, table, ms) == NoMaterials <==> ms == []
    ensures Outcome(number, table, ms) == NoNitrogen <==>
              ms != [] && forall i :: 0 <= i < |ms| ==> !Contributes(table, ms[i])
  {
    NitrogenTotal(number, table, ms);
  }

  /** The totals of a list are those of its parts added up, so the order of
      the materials does not matter and the ones that do not contribute
      change nothing. */
  lemma {:induction false} TotalsAppend(number: string -> Option<real>, table: seq<CNMaterial>, xs: seq<MaterialInput>, ys: seq<MaterialInput>)
    ensures Totals(number, table, xs + ys).1 == Totals(number, table, xs).1 + Totals(number, table, ys).1
    ensures Totals(number, table, xs + ys).0 == Plus(Totals(number, table, xs).0, Totals(number, table, ys).0)
  {
    if ys == [] {
      assert xs + ys == xs;
      var c := Totals(number, table, xs).0;
      assert Plus(c, Some(0.0)) == c;
    } else {
      var ys' := ys[..|ys| - 1];
      assert (xs + ys)[..|xs + ys| - 1] == xs + ys';
      assert (xs + ys)[|xs + ys| - 1] == ys[|ys| - 1];
      TotalsAppend(number, table, xs, ys');
    }
  }
}
