/**
 * Selecting a menu entry from a typed shortcut (FindMenuShortcutEntry in
 * refind/menu.c).
 *
 * The shortcut is a NUL-terminated CHAR16 string that may be NULL. A
 * one-character shortcut is upper-cased in place when it is a lowercase
 * ASCII letter and matched against each entry's shortcut digit and letter;
 * a longer one is matched as a case-insensitive substring of the entry
 * titles. The result is the index of the first matching entry, or -1.
 */
module MenuShortcut {

  /** The fields of a REFIT_MENU_ENTRY the search reads. */
  datatype MenuEntry = MenuEntry(title: seq<char>, shortcutDigit: char, shortcutLetter: char)

  /** Whether s holds a terminating NUL, as every CHAR16 string must. */
  predicate Terminated(s: seq<char>) {
    exists i :: 0 <= i < |s| && s[i] == '\0'
  }

  /** StrLen: the number of characters before the first NUL. */
  function StrLen(s: seq<char>): (n: nat)
    requires Terminated(s)
    ensures n < |s| && s[n] == '\0'
    ensures forall j :: 0 <= j < n ==> s[j] != '\0'
  {
    if s[0] == '\0' then 0
    else
      assert Terminated(s[1..]) by {
        var i :| 0 <= i < |s| && s[i] == '\0';
        assert s[1..][i - 1] == '\0';
      }
      1 + StrLen(s[1..])
  }

  /** The in-place upper-casing of a lowercase ASCII letter (subtracting 'a' - 'A'). */
  function UpperAscii(c: char): (u: char)
    ensures 'a' <= c <= 'z' ==> 'A' <= u <= 'Z' && u as int == c as int - 32
    ensures !('a' <= c <= 'z') ==> u == c
  {
    if 'a' <= c <= 'z' then (c as int - ('a' as int - 'A' as int)) as char else c
  }

  /**
   * Whether an entry answers the shortcut string key (the characters before
   * the NUL, after upper-casing): by digit or letter for a single character,
   * by the title substring test subCmp (StriSubCmp, not part of this model)
   * for a longer key.
   */
  predicate Answers(e: MenuEntry, key: seq<char>, subCmp: (seq<char>, seq<char>) -> bool) {
    if |key| == 1 then key[0] != '\0' && (e.shortcutDigit == key[0] || e.shortcutLetter == key[0])
    else |key| > 1 && subCmp(key, e.title)
  }

  /**
   * FindMenuShortcutEntry. The caller's string is upper-cased in place when
   * it is a single lowercase letter; the result is the first entry that
   * answers it, or -1 for a NULL or empty shortcut or when none answers.
   */
  method FindMenuShortcutEntry(entries: seq<MenuEntry>, shortcut: array?<char>,
                               subCmp: (seq<char>, seq<char>) -> bool)
    returns (index: int)
    requires shortcut != null ==> Terminated(shortcut[..])
    modifies shortcut
    ensures shortcut == null ==> index == -1
    ensures shortcut != null ==>
      var n := StrLen(old(shortcut[..]));
      && shortcut[..] == (if n == 1 then old(shortcut[..])[0 := UpperAscii(old(shortcut[0]))] else old(shortcut[..]))
      && Terminated(shortcut[..])
      && StrLen(shortcut[..]) == n
      && (n == 0 ==> index == -1)
      && (index == -1 || 0 <= index < |entries|)
      && (index >= 0 ==> Answers(entries[index], shortcut[..n], subCmp))
      && (forall j :: 0 <= j < |entries| && (index == -1 || j < index) ==> !Answers(entries[j], shortcut[..n], subCmp))
  {
    if shortcut == null {
      return -1;
    }
    var n := StrLen(shortcut[..]);
    if n == 1 {
      if 'a' <= shortcut[0] <= 'z' {
        shortcut[0] := (shortcut[0] as int - ('a' as int - 'A' as int)) as char;
      }
      assert StrLen(shortcut[..]) == 1 by {
        assert shortcut[1] == '\0';
      }
      if shortcut[0] != '\0' {
        var i := 0;
        while i < |entries|
          invariant 0 <= i <= |entries|
          invariant forall j :: 0 <= j < i ==> !Answers(entries[j], shortcut[..1], subCmp)
        {
          if entries[i].shortcutDigit == shortcut[0] || entries[i].shortcutLetter == shortcut[0] {
            return i;
          }
          i := i + 1;
        }
      }
    } else if n > 1 {
      var key := shortcut[..n];
      var i := 0;
      while i < |entries|
        invariant 0 <= i <= |entries|
        invariant forall j :: 0 <= j < i ==> !Answers(entries[j], key, subCmp)
      {
        if subCmp(key, entries[i].title) {
          return i;
        }
        i := i + 1;
      }
    }
    return -1;
  }
}
