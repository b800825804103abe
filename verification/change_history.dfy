/** The change history: its file format and the trimming of its oldest entries. */
module ChangeHistories {
  import opened Text
  import opened ValueFormat
  import opened EscapedFields

  datatype RevertKind = NoRevert | RevertSetValue | RevertDeleteValue | RevertDeleteKey

  /** sourceKind is the source tab, -1 when it is unknown. */
  datatype HistoryEntry = HistoryEntry(
    timestamp: uint64, timeText: wstring, action: wstring, oldData: wstring, newData: wstring,
    keyPath: wstring, valueName: wstring, revertKind: RevertKind, revertValue: RegistryValue,
    backupMode: bool, sourceKind: int, sourceName: wstring, sourceView: uint32)

  // ----- the file format

  function KindNumber(k: RevertKind): (n: nat)
    ensures n <= 3
  {
    match k case NoRevert => 0 case RevertSetValue => 1 case RevertDeleteValue => 2 case RevertDeleteKey => 3
  }

  function KindOf(n: nat): RevertKind
    requires n <= 3
  {
    if n == 0 then NoRevert
    else if n == 1 then RevertSetValue else if n == 2 then RevertDeleteValue else RevertDeleteKey
  }

  function FieldsOf(e: HistoryEntry): (fields: seq<wstring>)
    ensures |fields| == 15
  {
    [ToDecimal(e.timestamp as nat), e.timeText, e.action, e.oldData, e.newData, e.keyPath, e.valueName,
     ToDecimal(KindNumber(e.revertKind)), e.revertValue.name, ToDecimal(e.revertValue.kind as nat),
     ToHex(e.revertValue.data, [SPACE]), if e.backupMode then W("1") else W("0"),
     ToSigned(e.sourceKind), e.sourceName, ToDecimal(e.sourceView as nat)]
  }

  method SerializeHistoryEntry(entry: HistoryEntry) returns (line: wstring)
    ensures line == Record(FieldsOf(entry))
  {
    line := AppendRecord([], FieldsOf(entry));
  }

  const MAX_DWORD: uint64 := 0xFFFF_FFFF
  const MAX_U64: uint64 := 0xFFFF_FFFF_FFFF_FFFF

  /** What a number field holds, if it is one up to `maximum`. */
  function Number(text: wstring, maximum: uint64): Option<uint64> {
    if text != [] && AllDigits(text) && DecimalValue(text) <= maximum as nat then Some(DecimalValue(text) as uint64)
    else None
  }

  const DEFAULT_VALUE := RegistryValue([], 0, [])

  /** The revert fields, taken all together or not at all. */
  function RevertOf(fields: seq<wstring>): (RevertKind, RegistryValue)
    requires |fields| == 15
  {
    var kind, ty, data := Number(fields[7], 3), Number(fields[9], MAX_DWORD), ParseHex(fields[10]);
    if kind.None? || ty.None? || data.None? then (NoRevert, DEFAULT_VALUE)
    else (KindOf(kind.value as nat), RegistryValue(fields[8], ty.value as uint32, data.value))
  }

  /** The source fields, taken all together or not at all. */
  function SourceOf(fields: seq<wstring>): (int, wstring, uint32)
    requires |fields| == 15
  {
    var kind, view := Number(fields[12], 3), Number(fields[14], MAX_DWORD);
    if kind.None? || view.None? then (-1, [], 0) else (kind.value as int, fields[13], view.value as uint32)
  }

  function EntryOf(fields: seq<wstring>): Option<HistoryEntry> {
    if |fields| != 15 || Number(fields[0], MAX_U64).None? then None
    else
      var (revertKind, revertValue) := RevertOf(fields);
      var (sourceKind, sourceName, sourceView) := SourceOf(fields);
      Some(HistoryEntry(
        Number(fields[0], MAX_U64).value, fields[1], fields[2], fields[3], fields[4], fields[5], fields[6],
        revertKind, revertValue, fields[11] == W("1"), sourceKind, sourceName, sourceView))
  }

  /** The entries of the non-empty lines, or None when a line is no history row. */
  function EntriesOf(lines: seq<wstring>): Option<seq<HistoryEntry>> {
    if lines == [] then Some([])
    else if lines[0] == [] then EntriesOf(lines[1..])
    else
      var entry := EntryOf(Decoded(lines[0]));
      var rest := EntriesOf(lines[1..]);
      if entry.None? || rest.None? then None else Some([entry.value] + rest.value)
  }

  method ReadNumber(text: wstring, maximum: uint64) returns (value: Option<uint64>)
    ensures value == Number(text, maximum)
  {
    value := ParseUnsigned(text, maximum);
  }

  method DecodeRevert(fields: seq<wstring>) returns (revertKind: RevertKind, revertValue: RegistryValue)
    requires |fields| == 15
    ensures (revertKind, revertValue) == RevertOf(fields)
  {
    revertKind, revertValue := NoRevert, DEFAULT_VALUE;
    var kind := ReadNumber(fields[7], 3);
    if kind.None? {
      return;
    }
    var ty := ReadNumber(fields[9], MAX_DWORD);
    if ty.None? {
      return;
    }
    var data := ParseHex(fields[10]);
    if data.None? {
      return;
    }
    revertKind := KindOf(kind.value as nat);
    revertValue := RegistryValue(fields[8], ty.value as uint32, data.value);
  }

  method ParseRow(fields: seq<wstring>) returns (row: Option<HistoryEntry>)
    ensures row == EntryOf(fields)
  {
    if |fields| != 15 {
      return None;
    }
    var timestamp := ReadNumber(fields[0], MAX_U64);
    if timestamp.None? {
      return None;
    }
    var revertKind, revertValue := DecodeRevert(fields);
    var sourceKind, sourceName, sourceView := -1, [], 0;
    var kind := ReadNumber(fields[12], 3);
    var view := ReadNumber(fields[14], MAX_DWORD);
    if kind.Some? && view.Some? {
      sourceKind, sourceName, sourceView := kind.value as int, fields[13], view.value as uint32;
    }
    assert (sourceKind, sourceName, sourceView) == SourceOf(fields);
    return Some(HistoryEntry(
      timestamp.value, fields[1], fields[2], fields[3], fields[4], fields[5], fields[6],
      revertKind, revertValue, fields[11] == W("1"), sourceKind, sourceName, sourceView));
  }

  /** The document of a history file, empty when a line is no history row. */
  method ParseHistory(content: wstring) returns (entries: seq<HistoryEntry>, ok: bool)
    ensures ok == EntriesOf(LinesOf(content)).Some?
    ensures entries == if ok then EntriesOf(LinesOf(content)).value else []
  {
    hide EntryOf, Decoded, LinesOf;
    var lines := Lines(content);
    entries := [];
    for i := 0 to |lines|
      invariant EntriesOf(lines[i..]).Some? == EntriesOf(lines).Some?
      invariant EntriesOf(lines).Some? ==> entries + EntriesOf(lines[i..]).value == EntriesOf(lines).value
    {
      assert lines[i..][1..] == lines[i + 1..];
      if lines[i] == [] {
        continue;
      }
      var fields := DecodeRecord(lines[i]);
      var row := ParseRow(fields);
      if row.None? {
        return [], false;
      }
      if EntriesOf(lines).Some? {
        ConcatAssoc(entries, [row.value], EntriesOf(lines[i + 1..]).value);
      }
      entries := entries + [row.value];
    }
    assert lines[|lines|..] == [];
    ok := true;
  }

  /** What a stored entry is read back as: the source of an unknown tab is not kept. */
  function Remembered(e: HistoryEntry): HistoryEntry {
    if 0 <= e.sourceKind <= 3 then e else e.(sourceKind := -1, sourceName := [], sourceView := 0)
  }

  lemma NumberRoundTrip(n: nat, maximum: uint64)
    requires n < 0x1_0000_0000_0000_0000
    ensures Number(ToDecimal(n), maximum) == if n <= maximum as nat then Some(n as uint64) else None
  {
    DecimalRoundTrip(n);
  }

  lemma SignedIsNoNumber(n: int)
    requires n < 0
    ensures Number(ToSigned(n), 3) == None
  {
    assert ToSigned(n)[0] == MINUS;
  }

  lemma LargeIsNoSource(n: nat)
    requires n > 3
    ensures Number(ToDecimal(n), 3) == None
  {
    DecimalRoundTrip(n);
  }

  lemma RevertRoundTrip(e: HistoryEntry)
    ensures RevertOf(FieldsOf(e)) == (e.revertKind, e.revertValue)
  {
    NumberRoundTrip(KindNumber(e.revertKind), 3);
    NumberRoundTrip(e.revertValue.kind as nat, MAX_DWORD);
    HexRoundTrip(e.revertValue.data, [SPACE]);
    hide Number, ToDecimal, ToSigned, ToHex, ParseHex, W;
    assert KindOf(KindNumber(e.revertKind)) == e.revertKind;
  }

  lemma SourceRoundTrip(e: HistoryEntry)
    ensures SourceOf(FieldsOf(e)) == (Remembered(e).sourceKind, Remembered(e).sourceName, Remembered(e).sourceView)
  {
    NumberRoundTrip(e.sourceView as nat, MAX_DWORD);
    if e.sourceKind < 0 {
      SignedIsNoNumber(e.sourceKind);
    } else if e.sourceKind > 3 {
      LargeIsNoSource(e.sourceKind);
    } else {
      NumberRoundTrip(e.sourceKind, 3);
    }
    hide Number, ToDecimal, ToHex, W;
  }

  lemma EntryRoundTrip(e: HistoryEntry)
    ensures EntryOf(FieldsOf(e)) == Some(Remembered(e))
  {
    NumberRoundTrip(e.timestamp as nat, MAX_U64);
    RevertRoundTrip(e);
    SourceRoundTrip(e);
    assert W("0")[0] != W("1")[0];
    hide Number, ToDecimal, ToSigned, ToHex, RevertOf, SourceOf, W;
  }

  function SerializeAll(entries: seq<HistoryEntry>): wstring {
    if entries == [] then [] else Record(FieldsOf(entries[0])) + SerializeAll(entries[1..])
  }

  function RememberedAll(entries: seq<HistoryEntry>): (r: seq<HistoryEntry>)
    ensures |r| == |entries|
    ensures forall i :: 0 <= i < |entries| ==> r[i] == Remembered(entries[i])
  {
    if entries == [] then [] else [Remembered(entries[0])] + RememberedAll(entries[1..])
  }

  /** Reading what was written gives every entry back, up to the source of an unknown tab. */
  lemma {:induction false} HistoryRoundTrip(entries: seq<HistoryEntry>)
    ensures EntriesOf(LinesOf(SerializeAll(entries))) == Some(RememberedAll(entries))
  {
    if entries == [] {
      NoLines([]);
    } else {
      hide EntryOf, FieldsOf, Decoded, LinesOf, EntriesOf, Joined, Record, Remembered;
      var fields := FieldsOf(entries[0]);
      LinesOfRecord(fields, SerializeAll(entries[1..]));
      DecodeJoined(fields);
      EntryRoundTrip(entries[0]);
      HistoryRoundTrip(entries[1..]);
    }
  }

  /** The history file is faithful exactly when each entry has a known source or no source data at all. */
  lemma HistoryIsFaithful(entries: seq<HistoryEntry>)
    ensures EntriesOf(LinesOf(SerializeAll(entries))) == Some(entries) <==>
            forall i :: 0 <= i < |entries| ==>
              0 <= entries[i].sourceKind <= 3
                || (entries[i].sourceKind == -1 && entries[i].sourceName == [] && entries[i].sourceView == 0)
  {
    HistoryRoundTrip(entries);
    hide EntriesOf, LinesOf, SerializeAll, RememberedAll;
    var back := RememberedAll(entries);
    if i :| 0 <= i < |entries|
            && !(0 <= entries[i].sourceKind <= 3
                 || (entries[i].sourceKind == -1 && entries[i].sourceName == [] && entries[i].sourceView == 0)) {
      assert back[i] != entries[i];
    } else {
      assert forall i :: 0 <= i < |entries| ==> back[i] == entries[i];
      assert back == entries;
    }
  }
}
