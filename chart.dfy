/**
 * The two classifications the entropy chart draws from the augmented table:
 * which side of the axis a signal goes on (user resettable or not) and the
 * colour of its circle (read privilege). The table is read back from its CSV
 * text by pandas, which turns an empty cell into NaN.
 */
module Chart {
  import opened Wrappers
  import opened SignalRegistry
  import opened Header
  import opened Augment

  /** Python's `sub in s` on two strings. */
  function Contains(s: string, sub: string): (r: bool)
    decreases |s|
    ensures r ==> |sub| <= |s|
    ensures sub == [] ==> r
  {
    if |s| < |sub| then false else s[..|sub|] == sub || Contains(s[1..], sub)
  }

  /** `sub` occurs in `s` starting at index `i`. */
  predicate OccursAt(s: string, sub: string, i: nat) {
    i + |sub| <= |s| && s[i..i + |sub|] == sub
  }

  /** `Contains` holds exactly when `sub` occurs at some index of `s`. */
  lemma {:induction false} ContainsOccurs(s: string, sub: string)
    decreases |s|
    ensures Contains(s, sub) <==> exists i: nat :: OccursAt(s, sub, i)
  {
    if |s| < |sub| {
    } else if s[..|sub|] == sub {
      assert OccursAt(s, sub, 0);
    } else {
      ContainsOccurs(s[1..], sub);
      forall i: nat | OccursAt(s, sub, i) ensures i >= 1 && OccursAt(s[1..], sub, i - 1) {
        assert s[1..][i - 1..i - 1 + |sub|] == s[i..i + |sub|];
      }
      forall i: nat | OccursAt(s[1..], sub, i) ensures OccursAt(s, sub, i + 1) {
        assert s[1..][i..i + |sub|] == s[i + 1..i + 1 + |sub|];
      }
    }
  }

  /** `lambda x: 1 if 'Yes' in x else -1`: 1 puts the signal on the user-resettable side. */
  function ResettableSide(userResettable: string): (side: int)
    ensures side == 1 || side == -1
    ensures side == 1 <==> exists i: nat :: OccursAt(userResettable, "Yes", i)
  {
    ContainsOccurs(userResettable, "Yes");
    if Contains(userResettable, "Yes") then 1 else -1
  }

  /** `{'local root': 'red', 'local': 'green'}`. */
  const ColourMap: map<string, string> := map["local root" := "red", "local" := "green"]

  /** A cell of the table as pandas reads it back from CSV text: an empty field becomes NaN (`None`). */
  function CellAsRead(text: string): (cell: Option<string>)
    ensures cell.None? <==> text == ""
    ensures cell.Some? ==> cell.value == text
  {
    if text == "" then None else Some(text)
  }

  /** `read_privileges.map(color_map).fillna('gray')` for one cell. */
  function PrivilegeColour(cell: Option<string>): (colour: string)
    ensures colour == "red" <==> cell == Some("local root")
    ensures colour == "green" <==> cell == Some("local")
    ensures colour == "gray" <==> cell != Some("local root") && cell != Some("local")
  {
    match cell
    case Some(privileges) => if privileges in ColourMap then ColourMap[privileges] else "gray"
    case None => "gray"
  }

  /** What the side mapping can raise: `'Yes' in x` on a NaN cell is a `TypeError`. */
  datatype ChartError = NotIterable

  /** The side mapping as written: the lambda applied to the cell pandas read, NaN included. */
  function SideAsWritten(cell: Option<string>): (r: Result<int, ChartError>)
    ensures r.Failure? <==> cell.None?
    ensures r.Success? ==> (r.value == 1 <==> Contains(cell.value, "Yes"))
  {
    match cell
    case Some(userResettable) => Success(ResettableSide(userResettable))
    case None => Failure(NotIterable)
  }

  /**
   * Every row whose signal the registry does not know is written with an empty
   * `user_resettable` cell, which pandas reads as NaN, so the side mapping
   * raises for it.
   */
  lemma UnknownSignalBreaksSide(row: Row)
    requires !KnownSignal(row)
    ensures SideAsWritten(CellAsRead(AugmentRow(row)[UserResettableField])).Failure?
  {
  }

  /** A concrete table row that shows it: a signal name outside the registry. */
  lemma UnknownSignalExample()
    ensures SideAsWritten(CellAsRead(AugmentRow(map[SignalNameField := "Uptime"])[UserResettableField]))
            == Failure(NotIterable)
  {
    var row := map[SignalNameField := "Uptime"];
    RegistryNameLengths();
    UnknownSignalBreaksSide(row);
  }

  /** The side mapping with a NaN cell put on the not-resettable side, as any text without "Yes" is. */
  function Side(cell: Option<string>): (side: int)
    ensures side == 1 || side == -1
    ensures side == 1 <==> cell.Some? && Contains(cell.value, "Yes")
    ensures cell.Some? ==> side == ResettableSide(cell.value)
  {
    match cell
    case Some(userResettable) => ResettableSide(userResettable)
    case None => -1
  }

  /**
   * An augmented row lands on the user-resettable side exactly when its signal
   * is in the registry and marked "Yes".
   */
  lemma AugmentedSide(row: Row)
    ensures Side(CellAsRead(AugmentRow(row)[UserResettableField])) == 1 <==>
              KnownSignal(row) && ResettableByUser(row[SignalNameField])
  {
    RegistryResettable();
    var cell := AugmentRow(row)[UserResettableField];
    ContainsOccurs(cell, "Yes");
    if KnownSignal(row) {
      assert cell == "Yes" || cell == "No";
      if cell == "No" {
        assert !Contains(cell, "Yes");
      }
    }
  }

  /**
   * An augmented row is drawn red when its signal needs root, green when it is
   * a known signal readable locally, and gray when the registry does not know it.
   */
  lemma AugmentedColour(row: Row)
    ensures PrivilegeColour(CellAsRead(AugmentRow(row)[ReadPrivilegesField])) ==
              if !KnownSignal(row) then "gray"
              else if RootToRead(row[SignalNameField]) then "red"
              else "green"
  {
    RegistryRootOnly();
  }
}
