/** The version and message type tables and their inverses (`source/fix/fix_constants.h`). */
module FixConstants {
  import opened Text

  const FIX_EQUALS := '='
  const FIX_DELIMITER := 1 as char

  const TAG_VERSION := 8
  const TAG_BODY_LENGTH := 9
  const TAG_BODY_CHECKSUM := 10
  const TAG_SEQUENCE_NUMBER := 34
  const TAG_MESSAGE_TYPE := 35
  const TAG_SENDER_COMPID := 49
  const TAG_SENDING_TIME := 52
  const TAG_TARGET_COMPID := 56
  const TAG_ENCRYPT_METHOD := 98
  const TAG_HEARTBEAT_INTERVAL := 108

  const VERSION_STRINGS: seq<string> :=
    ["NONE", "FIX.4.0", "FIX.4.1", "FIX.4.2", "FIX.4.3", "FIX.4.4", "FIX.5.0", "FIX.5.0SP1", "FIX.5.0SP2"]

  const MESSAGE_TYPE_STRINGS: seq<string> :=
    ["NONE", "A", "5", "1", "2", "3", "4", "0", "BE", "BF", "D", "F", "8", "j"]

  const LOGON := 1
  const LOGOFF := 2
  const TEST_REQUEST := 3
  const RESEND_REQUEST := 4
  const ADMIN_REJECT := 5
  const SEQUENCE_RESET := 6
  const HEARTBEAT := 7
  const USER_LOGON := 8
  const USER_RESPONSE := 9
  const NEW_ORDER := 10
  const CANCEL := 11
  const EXECUTION_REPORT := 12
  const BUSINESS_REJECT := 13

  /** The order in which the entries are tried. */
  const VERSION_TESTS: seq<nat> := [1, 2, 3, 4, 5, 6, 7, 8]
  const MESSAGE_TYPE_TESTS: seq<nat> := [1, 7, 3, 4, 6, 2, 8, 9, 10, 11, 12, 5, 13]

  /** The first tried entry that compares equal, else 0. */
  function FirstEqual(text: string, table: seq<string>, tests: seq<nat>): (r: nat)
    ensures r == 0 || (r in tests && r < |table| && Compare(text, table[r]))
    ensures r == 0 ==> forall k | 0 <= k < |tests| && 0 < tests[k] < |table| :: !Compare(text, table[tests[k]])
  {
    if tests == [] then 0
    else if 0 < tests[0] < |table| && Compare(text, table[tests[0]]) then tests[0]
    else FirstEqual(text, table, tests[1..])
  }

  function FixVersionFromString(version: string): (r: nat)
    ensures r < |VERSION_STRINGS|
  {
    FirstEqual(version, VERSION_STRINGS, VERSION_TESTS)
  }

  function MessageTypeFromString(messageType: string): (r: nat)
    ensures r < |MESSAGE_TYPE_STRINGS|
  {
    FirstEqual(messageType, MESSAGE_TYPE_STRINGS, MESSAGE_TYPE_TESTS)
  }

  /** No table entry is mistaken for another, whatever its case. */
  lemma Apart(table: seq<string>, i: nat, j: nat)
    requires table == VERSION_STRINGS || table == MESSAGE_TYPE_STRINGS
    requires i < |table| && j < |table| && i != j
    ensures !Compare(table[i], table[j])
  {
    if table == VERSION_STRINGS { VersionsApart(i, j); } else { TypesApart(i, j); }
  }

  lemma VersionsApart(i: nat, j: nat)
    requires i < |VERSION_STRINGS| && j < |VERSION_STRINGS| && i != j
    ensures !Compare(VERSION_STRINGS[i], VERSION_STRINGS[j])
  {
    var s, t := VERSION_STRINGS[i], VERSION_STRINGS[j];
    CompareLiteral(s, t);
    assert |s| == |t| ==> LowerChar(s[|s| - 1]) != LowerChar(t[|t| - 1]) || LowerChar(s[4]) != LowerChar(t[4]);
  }

  lemma TypesApart(i: nat, j: nat)
    requires i < |MESSAGE_TYPE_STRINGS| && j < |MESSAGE_TYPE_STRINGS| && i != j
    ensures !Compare(MESSAGE_TYPE_STRINGS[i], MESSAGE_TYPE_STRINGS[j])
  {
    var s, t := MESSAGE_TYPE_STRINGS[i], MESSAGE_TYPE_STRINGS[j];
    CompareLiteral(s, t);
    assert |s| == |t| ==> LowerChar(s[|s| - 1]) != LowerChar(t[|t| - 1]);
  }

  lemma FirstEqualOf(table: seq<string>, tests: seq<nat>, i: nat)
    requires table == VERSION_STRINGS || table == MESSAGE_TYPE_STRINGS
    requires i < |table|
    requires i == 0 || i in tests
    ensures FirstEqual(table[i], table, tests) == i
  {
    var r := FirstEqual(table[i], table, tests);
    if r != i && r != 0 {
      Apart(table, i, r);
    }
  }

  /** Every version and every message type that is printed is read back as itself. */
  lemma VersionRoundTrip(i: nat)
    requires i < |VERSION_STRINGS|
    ensures FixVersionFromString(VERSION_STRINGS[i]) == i
  {
    assert VERSION_TESTS[if i == 0 then 0 else i - 1] == if i == 0 then 1 else i;
    FirstEqualOf(VERSION_STRINGS, VERSION_TESTS, i);
  }

  lemma MessageTypeRoundTrip(i: nat)
    requires i < |MESSAGE_TYPE_STRINGS|
    ensures MessageTypeFromString(MESSAGE_TYPE_STRINGS[i]) == i
  {
    var at: seq<nat> := [0, 0, 5, 2, 3, 11, 4, 1, 6, 7, 8, 9, 10, 12];
    assert i != 0 ==> MESSAGE_TYPE_TESTS[at[i]] == i;
    FirstEqualOf(MESSAGE_TYPE_STRINGS, MESSAGE_TYPE_TESTS, i);
  }

  /** The code of a text is the tried entry that it compares equal to, if there is one. */
  lemma FirstEqualIs(text: string, table: seq<string>, tests: seq<nat>, i: nat)
    requires table == VERSION_STRINGS || table == MESSAGE_TYPE_STRINGS
    requires 0 < i < |table| && i in tests
    ensures FirstEqual(text, table, tests) == i <==> SameText(text, table[i])
  {
    CompareExactly(text, table[i]);
    var r := FirstEqual(text, table, tests);
    if r != i && r != 0 {
      Apart(table, i, r);
    }
  }

  lemma VersionIs(version: string, i: nat)
    requires 0 < i < |VERSION_STRINGS|
    ensures FixVersionFromString(version) == i <==> SameText(version, VERSION_STRINGS[i])
  {
    assert VERSION_TESTS[i - 1] == i;
    FirstEqualIs(version, VERSION_STRINGS, VERSION_TESTS, i);
  }

  lemma MessageTypeIs(messageType: string, i: nat)
    requires 0 < i < |MESSAGE_TYPE_STRINGS|
    ensures MessageTypeFromString(messageType) == i <==> SameText(messageType, MESSAGE_TYPE_STRINGS[i])
  {
    var at: seq<nat> := [0, 0, 5, 2, 3, 11, 4, 1, 6, 7, 8, 9, 10, 12];
    assert MESSAGE_TYPE_TESTS[at[i]] == i;
    FirstEqualIs(messageType, MESSAGE_TYPE_STRINGS, MESSAGE_TYPE_TESTS, i);
  }

  /** The texts of tag 8, up to case. */
  lemma VersionTexts(version: string)
    ensures FixVersionFromString(version) <= 8
    ensures FixVersionFromString(version) == 1 <==> SameText(version, "FIX.4.0")
    ensures FixVersionFromString(version) == 2 <==> SameText(version, "FIX.4.1")
    ensures FixVersionFromString(version) == 3 <==> SameText(version, "FIX.4.2")
    ensures FixVersionFromString(version) == 4 <==> SameText(version, "FIX.4.3")
    ensures FixVersionFromString(version) == 5 <==> SameText(version, "FIX.4.4")
    ensures FixVersionFromString(version) == 6 <==> SameText(version, "FIX.5.0")
    ensures FixVersionFromString(version) == 7 <==> SameText(version, "FIX.5.0SP1")
    ensures FixVersionFromString(version) == 8 <==> SameText(version, "FIX.5.0SP2")
  {
    VersionIs(version, 1);
    VersionIs(version, 2);
    VersionIs(version, 3);
    VersionIs(version, 4);
    VersionIs(version, 5);
    VersionIs(version, 6);
    VersionIs(version, 7);
    VersionIs(version, 8);
  }

  /** The texts of tag 35 that the sessions handle, up to case. */
  lemma SessionTypeTexts(messageType: string)
    ensures MessageTypeFromString(messageType) == LOGON <==> SameText(messageType, "A")
    ensures MessageTypeFromString(messageType) == LOGOFF <==> SameText(messageType, "5")
    ensures MessageTypeFromString(messageType) == TEST_REQUEST <==> SameText(messageType, "1")
    ensures MessageTypeFromString(messageType) == RESEND_REQUEST <==> SameText(messageType, "2")
    ensures MessageTypeFromString(messageType) == ADMIN_REJECT <==> SameText(messageType, "3")
    ensures MessageTypeFromString(messageType) == SEQUENCE_RESET <==> SameText(messageType, "4")
    ensures MessageTypeFromString(messageType) == HEARTBEAT <==> SameText(messageType, "0")
  {
    MessageTypeIs(messageType, LOGON);
    MessageTypeIs(messageType, LOGOFF);
    MessageTypeIs(messageType, TEST_REQUEST);
    MessageTypeIs(messageType, RESEND_REQUEST);
    MessageTypeIs(messageType, ADMIN_REJECT);
    MessageTypeIs(messageType, SEQUENCE_RESET);
    MessageTypeIs(messageType, HEARTBEAT);
  }

  /** The other texts of tag 35, up to case; there are thirteen in all. */
  lemma ApplicationTypeTexts(messageType: string)
    ensures MessageTypeFromString(messageType) <= 13
    ensures MessageTypeFromString(messageType) == USER_LOGON <==> SameText(messageType, "BE")
    ensures MessageTypeFromString(messageType) == USER_RESPONSE <==> SameText(messageType, "BF")
    ensures MessageTypeFromString(messageType) == NEW_ORDER <==> SameText(messageType, "D")
    ensures MessageTypeFromString(messageType) == CANCEL <==> SameText(messageType, "F")
    ensures MessageTypeFromString(messageType) == EXECUTION_REPORT <==> SameText(messageType, "8")
    ensures MessageTypeFromString(messageType) == BUSINESS_REJECT <==> SameText(messageType, "j")
  {
    MessageTypeIs(messageType, USER_LOGON);
    MessageTypeIs(messageType, USER_RESPONSE);
    MessageTypeIs(messageType, NEW_ORDER);
    MessageTypeIs(messageType, CANCEL);
    MessageTypeIs(messageType, EXECUTION_REPORT);
    MessageTypeIs(messageType, BUSINESS_REJECT);
  }

  predicate Plain(s: string) {
    FIX_EQUALS !in s && FIX_DELIMITER !in s
  }

  /** No table entry holds a separator. */
  lemma TablesPlain(i: nat)
    ensures i < |VERSION_STRINGS| ==> Plain(VERSION_STRINGS[i])
    ensures i < |MESSAGE_TYPE_STRINGS| ==> Plain(MESSAGE_TYPE_STRINGS[i])
  {
    if i < |VERSION_STRINGS| { VersionPlain(i); }
    if i < |MESSAGE_TYPE_STRINGS| { TypePlain(i); }
  }

  lemma VersionPlain(i: nat)
    requires i < |VERSION_STRINGS|
    ensures Plain(VERSION_STRINGS[i])
  {
    var s := VERSION_STRINGS[i];
    forall k | 0 <= k < |s| ensures s[k] >= '.' && s[k] != FIX_EQUALS {
    }
  }

  lemma TypePlain(i: nat)
    requires i < |MESSAGE_TYPE_STRINGS|
    ensures Plain(MESSAGE_TYPE_STRINGS[i])
  {
    var s := MESSAGE_TYPE_STRINGS[i];
    forall k | 0 <= k < |s| ensures s[k] >= '.' && s[k] != FIX_EQUALS {
    }
  }
}
