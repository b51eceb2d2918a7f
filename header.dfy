/**
 * The header rewrite of `process_csv`: the two metadata columns are placed
 * immediately after every "Signal Name" column, and nothing else moves.
 */
module Header {

  /** The column that names a signal in the entropy table. */
  const SignalNameField := "Signal Name"
  /** The two metadata columns the rewrite adds. */
  const UserResettableField := "user_resettable"
  const ReadPrivilegesField := "read_privileges"

  /** What one input column becomes in the output header. */
  function Expand(field: string): seq<string> {
    if field == SignalNameField then [field, UserResettableField, ReadPrivilegesField] else [field]
  }

  /** The output header: every input column expanded, in input order. */
  function Extended(fields: seq<string>): seq<string> {
    if fields == [] then [] else Extended(fields[..|fields| - 1]) + Expand(fields[|fields| - 1])
  }

  /** How many times "Signal Name" occurs in `fields`. */
  function Occurrences(fields: seq<string>): nat {
    multiset(fields)[SignalNameField]
  }

  /** Where the input column at index `i` lands in the output header. */
  function Position(fields: seq<string>, i: nat): nat
    requires i <= |fields|
  {
    i + 2 * Occurrences(fields[..i])
  }

  /**
   * The loop at the head of `process_csv`: append each field and, after a
   * "Signal Name" field, the two metadata columns.
   */
  method ExtendFieldnames(originalFields: seq<string>) returns (fieldnames: seq<string>)
    ensures fieldnames == Extended(originalFields)
  {
    fieldnames := [];
    for i := 0 to |originalFields|
      invariant fieldnames == Extended(originalFields[..i])
    {
      var field := originalFields[i];
      assert originalFields[..i + 1][..i] == originalFields[..i];
      fieldnames := fieldnames + [field];
      if field == SignalNameField {
        fieldnames := fieldnames + [UserResettableField, ReadPrivilegesField];
      }
    }
    assert originalFields[..|originalFields|] == originalFields;
  }

  /** The output header is two columns longer for every "Signal Name" column. */
  lemma {:induction false} ExtendedLength(fields: seq<string>)
    ensures |Extended(fields)| == |fields| + 2 * Occurrences(fields)
  {
    if fields != [] {
      var n := |fields| - 1;
      ExtendedLength(fields[..n]);
      assert fields == fields[..n] + [fields[n]];
      assert multiset(fields) == multiset(fields[..n]) + multiset{fields[n]};
    }
  }

  /** Without a "Signal Name" column, the header is returned unchanged. */
  lemma {:induction false} ExtendedWithoutSignalName(fields: seq<string>)
    requires SignalNameField !in fields
    ensures Extended(fields) == fields
  {
    if fields != [] {
      var n := |fields| - 1;
      assert SignalNameField !in fields[..n];
      ExtendedWithoutSignalName(fields[..n]);
      assert fields == fields[..n] + [fields[n]];
    }
  }

  /**
   * Every input column keeps its relative order: the column at index `i`
   * sits at `Position(fields, i)`, and a "Signal Name" column is followed
   * by the two metadata columns.
   */
  lemma {:induction false} ExtendedAt(fields: seq<string>, i: nat)
    requires i < |fields|
    ensures Position(fields, i) < |Extended(fields)|
    ensures Extended(fields)[Position(fields, i)] == fields[i]
    ensures fields[i] == SignalNameField ==>
              && Position(fields, i) + 2 < |Extended(fields)|
              && Extended(fields)[Position(fields, i) + 1] == UserResettableField
              && Extended(fields)[Position(fields, i) + 2] == ReadPrivilegesField
  {
    var n := |fields| - 1;
    var prefix := fields[..n];
    ExtendedLength(prefix);
    ExtendedLength(fields);
    if i < n {
      ExtendedAt(prefix, i);
      assert prefix[..i] == fields[..i];
      assert prefix[i] == fields[i];
    } else {
      assert fields[..i] == prefix;
    }
  }

  /** Later input columns land strictly later in the output header. */
  lemma {:induction false} PositionIncreasing(fields: seq<string>, i: nat, j: nat)
    requires i < j <= |fields|
    ensures Position(fields, i) < Position(fields, j)
  {
    assert fields[..j] == fields[..i] + fields[i..j];
    assert multiset(fields[..j]) == multiset(fields[..i]) + multiset(fields[i..j]);
  }

  /** A column name occurs in the output exactly when it is an input column or an added one. */
  lemma {:induction false} ExtendedMembers(fields: seq<string>, x: string)
    ensures x in Extended(fields) <==>
              x in fields || (SignalNameField in fields && (x == UserResettableField || x == ReadPrivilegesField))
  {
    if fields != [] {
      var n := |fields| - 1;
      ExtendedMembers(fields[..n], x);
      assert fields == fields[..n] + [fields[n]];
      assert x in fields <==> x in fields[..n] || x == fields[n];
      assert SignalNameField in fields <==> SignalNameField in fields[..n] || SignalNameField == fields[n];
    }
  }

  /** Removes the two columns the rewrite placed after each "Signal Name" column. */
  function Stripped(fieldnames: seq<string>): seq<string> {
    if fieldnames == [] then []
    else
      var n := |fieldnames|;
      if n >= 3 && fieldnames[n - 3] == SignalNameField
         && fieldnames[n - 2] == UserResettableField && fieldnames[n - 1] == ReadPrivilegesField
      then Stripped(fieldnames[..n - 3]) + [SignalNameField]
      else Stripped(fieldnames[..n - 1]) + [fieldnames[n - 1]]
  }

  /** No output header ends with "Signal Name": that column is always followed by two more. */
  lemma {:induction false} ExtendedLast(fields: seq<string>)
    requires Extended(fields) != []
    ensures Extended(fields)[|Extended(fields)| - 1] != SignalNameField
  {
  }

  /** Stripping the expansion of one more column, after a header that does not end in the pair "Signal Name", "user_resettable". */
  lemma StrippedStep(p: seq<string>, x: string)
    requires !(|p| >= 2 && p[|p| - 2] == SignalNameField && p[|p| - 1] == UserResettableField)
    ensures Stripped(p + Expand(x)) == Stripped(p) + [x]
  {
    var s := p + Expand(x);
    var n := |s|;
    if x == SignalNameField {
      assert s[..n - 3] == p;
    } else {
      assert s[..n - 1] == p;
      if n >= 3 {
        assert s[n - 3] == p[|p| - 2] && s[n - 2] == p[|p| - 1];
      }
    }
  }

  /** Stripping undoes the rewrite, so the rewrite adds nothing but the metadata columns. */
  lemma {:induction false} StrippedExtended(fields: seq<string>)
    ensures Stripped(Extended(fields)) == fields
  {
    if fields != [] {
      var n := |fields| - 1;
      var prefix := fields[..n];
      StrippedExtended(prefix);
      if |Extended(prefix)| >= 2 {
        ExtendedPenultimate(prefix);
      }
      StrippedStep(Extended(prefix), fields[n]);
      assert fields == prefix + [fields[n]];
    }
  }

  /** The column before the last of an output header is never "Signal Name" followed by "user_resettable". */
  lemma {:induction false} ExtendedPenultimate(fields: seq<string>)
    requires |Extended(fields)| >= 2
    ensures !(Extended(fields)[|Extended(fields)| - 2] == SignalNameField
              && Extended(fields)[|Extended(fields)| - 1] == UserResettableField)
  {
    var n := |fields| - 1;
    var prefix := fields[..n];
    if fields[n] != SignalNameField {
      var p := Extended(prefix);
      assert Extended(fields) == p + [fields[n]];
      if p != [] {
        ExtendedLast(prefix);
      }
    }
  }
}
