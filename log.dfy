/** The console's bounded log: entries pair a text with a level, each text is
    cut to what fits the 1024-byte formatting buffer, and once the log holds
    more than its limit the oldest entries are dropped. */
module Log {
  import opened Util

  /** Characters kept of one message: char buf[1024] less the terminating NUL. */
  const MaxLogText: nat := 1023

  /** Never modified once appended; only whole-entry eviction or clearing removes one. */
  datatype LogItem = LogItem(text: string, level: string)

  function Truncate(text: string): (r: string)
    ensures |r| == Min(|text|, MaxLogText)
    ensures r == text[..|r|]
  {
    if |text| <= MaxLogText then text else text[..MaxLogText]
  }

  /** The entry AddLog stores for one formatted message. */
  function Item(level: string, text: string): LogItem {
    LogItem(Truncate(text), level)
  }

  /** What is left after eviction: the newest `limit` entries, in order. */
  function Retain(items: seq<LogItem>, limit: nat): (r: seq<LogItem>)
    ensures |r| == Min(|items|, limit)
    ensures r == items[|items| - |r|..]
  {
    if |items| > limit then items[|items| - limit..] else items
  }

  /** The log after appending `entries` one at a time, evicting after each. */
  function Append(items: seq<LogItem>, entries: seq<LogItem>, limit: nat): seq<LogItem> {
    if entries == [] then items else Retain(items + entries, limit)
  }

  /** Evicting once at the end is the same as evicting after every append. */
  lemma RetainAppend(s: seq<LogItem>, t: seq<LogItem>, limit: nat)
    ensures Retain(Retain(s, limit) + t, limit) == Retain(s + t, limit)
  {
    var a := Retain(s, limit);
    if |s| > limit {
      assert a + t == (s + t)[|s| - limit..];
      var x := a + t;
      var y := s + t;
      assert |x| >= limit;
      assert x[|x| - Min(|x|, limit)..] == y[|y| - Min(|y|, limit)..];
    } else {
      assert a == s;
    }
  }

  lemma AppendAppend(items: seq<LogItem>, a: seq<LogItem>, b: seq<LogItem>, limit: nat)
    ensures Append(Append(items, a, limit), b, limit) == Append(items, a + b, limit)
  {
    if a == [] {
      assert a + b == b;
    } else if b == [] {
      assert a + b == a;
      assert Retain(Retain(items + a, limit), limit) == Retain(items + a, limit) by {
        RetainAppend(items + a, [], limit);
        assert Retain(items + a, limit) + [] == Retain(items + a, limit);
        assert items + a + [] == items + a;
      }
    } else {
      RetainAppend(items + a, b, limit);
      assert items + a + b == items + (a + b);
    }
  }

  /** After any non-empty batch the log is within its limit and holds exactly
      the newest entries of the old log followed by the batch, in order. */
  lemma AppendKeepsNewest(items: seq<LogItem>, entries: seq<LogItem>, limit: nat)
    requires entries != []
    ensures |Append(items, entries, limit)| == Min(|items| + |entries|, limit)
    ensures Append(items, entries, limit) == (items + entries)[|items| + |entries| - Min(|items| + |entries|, limit)..]
    ensures |entries| <= limit ==> Append(items, entries, limit)[|Append(items, entries, limit)| - |entries|..] == entries
  {
    var r := Append(items, entries, limit);
    var all := items + entries;
    if |entries| <= limit {
      assert r == all[|all| - |r|..];
      assert all[|all| - |entries|..] == entries;
    }
  }
}
