/** Source records of a v3 dataset: identity, episode and the `::` channel name. */
module Records {
  import opened Common
  import opened Text

  /** One source row. A field is None when its key is absent; `at` is None when no timestamp
      parses and `value` is None when the value is missing or not a finite number. */
  datatype Record = Record(
    at: Option<int>,
    siteId: Option<string>, assetId: Option<string>, entityId: Option<string>,
    tag: Option<string>, channel: Option<string>,
    episodeId: Option<string>, contextId: Option<string>, lineageId: Option<string>,
    eventId: Option<string>,
    value: Option<real>,
    actionId: Option<string>, outcomeId: Option<string>, reward: Option<real>, terminal: bool)

  datatype Identity = Identity(site: string, entity: string, tag: string)

  function FieldText(field: Option<string>, other: string): string {
    if field.Some? then field.value else other
  }

  function IdentityOf(r: Record): Option<Identity> {
    var site := Strip(FieldText(r.siteId, ""));
    var entity := Strip(FieldText(r.assetId, FieldText(r.entityId, "")));
    var tag := Strip(FieldText(r.tag, FieldText(r.channel, "")));
    if site == "" || entity == "" || tag == "" then None else Some(Identity(site, entity, tag))
  }

  /** The first of episode_id, context_id, lineage_id that is not blank. */
  function EpisodeOf(r: Record): Option<string> {
    if Strip(FieldText(r.episodeId, "")) != "" then Some(Strip(r.episodeId.value))
    else if Strip(FieldText(r.contextId, "")) != "" then Some(Strip(r.contextId.value))
    else if Strip(FieldText(r.lineageId, "")) != "" then Some(Strip(r.lineageId.value))
    else None
  }

  const SEPARATOR := "::"

  function ChannelName(id: Identity): string {
    id.site + SEPARATOR + id.entity + SEPARATOR + id.tag
  }

  /** The text before the first separator, `s.split("::", 1)[0]`. */
  function Head(s: string): string {
    if |s| < 2 then s
    else if s[..2] == SEPARATOR then ""
    else [s[0]] + Head(s[1..])
  }

  /** The text after the first separator, None when there is none. */
  function Rest(s: string): Option<string> {
    if |s| < 2 then None
    else if s[..2] == SEPARATOR then Some(s[2..])
    else Rest(s[1..])
  }

  /** `channel.split("::", 1)[0]`, the site the compiler reads off a channel name. */
  function ChannelSite(channel: string): string { Head(channel) }

  /** The three parts read back from a channel name, as the channel metadata does. */
  function SplitChannel(channel: string): Option<Identity> {
    match Rest(channel)
    case None => None
    case Some(tail) =>
      match Rest(tail)
      case None => None
      case Some(tag) => Some(Identity(Head(channel), Head(tail), tag))
  }

  /** No separator inside and no colon at the end. */
  predicate Clean(s: string) {
    (forall i | 0 <= i < |s| - 1 :: !(s[i] == ':' && s[i + 1] == ':')) && (s == "" || s[|s| - 1] != ':')
  }

  /** A prefix is read back from `prefix::rest` exactly when it is clean. */
  lemma {:induction false} HeadRecoversPrefix(prefix: string, rest: string)
    ensures Head(prefix + SEPARATOR + rest) == prefix <==> Clean(prefix)
    ensures Clean(prefix) ==> Rest(prefix + SEPARATOR + rest) == Some(rest)
  {
    var s := prefix + SEPARATOR + rest;
    if prefix == "" {
      assert s[..2] == SEPARATOR && s[2..] == rest;
    } else {
      assert s[1..] == prefix[1..] + SEPARATOR + rest;
      HeadRecoversPrefix(prefix[1..], rest);
      assert s[..2] == [s[0], s[1]];
      if s[0] == ':' && s[1] == ':' {
        assert Head(s) == "";
        assert !Clean(prefix) by {
          if |prefix| > 1 { assert prefix[0] == ':' && prefix[0 + 1] == ':'; }
        }
      } else {
        assert Clean(prefix) <==> Clean(prefix[1..]) by {
          CleanTail(prefix);
          assert |prefix| == 1 ==> Clean(prefix[1..]);
        }
        assert prefix == [prefix[0]] + prefix[1..];
        assert Head(s) == [s[0]] + Head(s[1..]);
      }
    }
  }

  lemma CleanTail(s: string)
    requires s != ""
    ensures Clean(s) <==> (if |s| == 1 then s[0] != ':' else !(s[0] == ':' && s[1] == ':') && Clean(s[1..]))
  {
    if |s| > 1 {
      var t := s[1..];
      if Clean(s) {
        forall i | 0 <= i < |t| - 1 ensures !(t[i] == ':' && t[i + 1] == ':') {
          assert t[i] == s[i + 1] && t[i + 1] == s[i + 2];
        }
      }
      if Clean(t) && !(s[0] == ':' && s[1] == ':') {
        forall i | 0 <= i < |s| - 1 ensures !(s[i] == ':' && s[i + 1] == ':') {
          if i > 0 { assert s[i] == t[i - 1] && s[i + 1] == t[i]; }
        }
      }
    }
  }

  /** The site the compiler reads off a channel is the observed site exactly when that site is clean. */
  lemma ChannelSiteIsSite(id: Identity)
    ensures ChannelSite(ChannelName(id)) == id.site <==> Clean(id.site)
  {
    HeadRecoversPrefix(id.site, id.entity + SEPARATOR + id.tag);
    assert ChannelName(id) == id.site + SEPARATOR + (id.entity + SEPARATOR + id.tag);
  }

  /** Splitting undoes naming exactly when site and entity are clean; the tag may hold anything. */
  lemma SplitUndoesName(id: Identity)
    ensures SplitChannel(ChannelName(id)) == Some(id) <==> Clean(id.site) && Clean(id.entity)
  {
    var tail := id.entity + SEPARATOR + id.tag;
    assert ChannelName(id) == id.site + SEPARATOR + tail;
    HeadRecoversPrefix(id.site, tail);
    HeadRecoversPrefix(id.entity, id.tag);
  }

  /** Clean identities with the same channel name are the same identity. */
  lemma NameIsInjective(a: Identity, b: Identity)
    requires Clean(a.site) && Clean(a.entity) && Clean(b.site) && Clean(b.entity)
    requires ChannelName(a) == ChannelName(b)
    ensures a == b
  {
    SplitUndoesName(a);
    SplitUndoesName(b);
  }

  // ---------- Which identities have a channel name of their own ----------

  predicate SeparatorAt(s: string, k: nat) { k + 1 < |s| && s[k] == ':' && s[k + 1] == ':' }

  predicate NoSeparator(s: string) { forall k | 0 <= k < |s| :: !SeparatorAt(s, k) }

  predicate StartsWithColon(s: string) { s != "" && s[0] == ':' }

  /** No colon of a part can be read as part of a separator. */
  predicate Unmistakable(id: Identity) {
    Clean(id.site) && Clean(id.entity) && NoSeparator(id.tag) && !StartsWithColon(id.entity) && !StartsWithColon(id.tag)
  }

  lemma CleanIff(s: string)
    ensures Clean(s) <==> NoSeparator(s) && (s == "" || s[|s| - 1] != ':')
  {
    if NoSeparator(s) {
      forall i | 0 <= i < |s| - 1 ensures !(s[i] == ':' && s[i + 1] == ':') { assert !SeparatorAt(s, i); }
    }
  }

  lemma SeparatorsOf(id: Identity)
    ensures var i := |id.site|;
            var j := i + 2 + |id.entity|;
            && SeparatorAt(ChannelName(id), i) && SeparatorAt(ChannelName(id), j)
            && ChannelName(id)[..i] == id.site && ChannelName(id)[i + 2..j] == id.entity && ChannelName(id)[j + 2..] == id.tag
  {
  }

  /** The separators of an unmistakable name are its own two, and with an empty entity the two middle colons. */
  lemma OnlyOwnSeparators(id: Identity, k: nat)
    requires Unmistakable(id)
    ensures SeparatorAt(ChannelName(id), k) ==>
              k == |id.site| || k == |id.site| + 2 + |id.entity| || (id.entity == "" && k == |id.site| + 1)
  {
    var name, i := ChannelName(id), |id.site|;
    var j := i + 2 + |id.entity|;
    CleanIff(id.site);
    CleanIff(id.entity);
    SeparatorsOf(id);
    if k + 1 < |name| {
      if k < i {
        assert name[k] == id.site[k] && !SeparatorAt(id.site, k);
        if k + 1 < i { assert name[k + 1] == id.site[k + 1]; }
      } else if i + 2 <= k < j {
        assert name[k] == id.entity[k - (i + 2)] && !SeparatorAt(id.entity, k - (i + 2));
        if k + 1 < j { assert name[k + 1] == id.entity[k + 1 - (i + 2)]; }
      } else if j + 2 <= k {
        assert name[k] == id.tag[k - (j + 2)] && name[k + 1] == id.tag[k + 1 - (j + 2)];
        assert !SeparatorAt(id.tag, k - (j + 2));
      }
    }
  }

  lemma UnmistakableIsAlone(id: Identity, other: Identity)
    requires Unmistakable(id) && ChannelName(other) == ChannelName(id)
    ensures other == id
  {
    SeparatorsOf(id);
    SeparatorsOf(other);
    OnlyOwnSeparators(id, |other.site|);
    OnlyOwnSeparators(id, |other.site| + 2 + |other.entity|);
  }

  lemma SplitHere(s: string, k: nat)
    requires SeparatorAt(s, k)
    ensures s == s[..k] + SEPARATOR + s[k + 2..]
  {
    assert s[k..k + 2] == SEPARATOR;
    assert s == s[..k] + s[k..k + 2] + s[k + 2..];
  }

  lemma SeparatorOutOfSite(u: string, v: string, entity: string, tag: string)
    ensures ChannelName(Identity(u + SEPARATOR + v, entity, tag)) == ChannelName(Identity(u, v + SEPARATOR + entity, tag))
  {
  }

  lemma SeparatorOutOfEntity(site: string, u: string, v: string, tag: string)
    ensures ChannelName(Identity(site, u + SEPARATOR + v, tag)) == ChannelName(Identity(site, u, v + SEPARATOR + tag))
  {
  }

  lemma SeparatorOutOfTag(site: string, entity: string, u: string, v: string)
    ensures ChannelName(Identity(site, entity, u + SEPARATOR + v)) == ChannelName(Identity(site, entity + SEPARATOR + u, v))
  {
    SeparatorOutOfEntity(site, entity, u, v);
  }

  lemma ColonPasses(u: string, v: string)
    ensures u + ":" + SEPARATOR + v == u + SEPARATOR + (":" + v)
  {
  }

  lemma ColonIntoEntity(site: string, entity: string, tag: string)
    ensures ChannelName(Identity(site + ":", entity, tag)) == ChannelName(Identity(site, ":" + entity, tag))
  {
    ColonPasses(site, entity);
  }

  lemma ColonIntoTag(site: string, entity: string, tag: string)
    ensures ChannelName(Identity(site, entity + ":", tag)) == ChannelName(Identity(site, entity, ":" + tag))
  {
    ColonPasses(site + SEPARATOR + entity, tag);
    assert site + SEPARATOR + (entity + ":") == (site + SEPARATOR + entity) + ":";
  }

  /** A colon or a separator moved over to the next part gives another identity with the same name. */
  lemma TwinOf(id: Identity) returns (other: Identity)
    requires !Unmistakable(id)
    ensures other != id && ChannelName(other) == ChannelName(id)
  {
    var site, entity, tag := id.site, id.entity, id.tag;
    if StartsWithColon(entity) {
      assert entity == ":" + entity[1..];
      ColonIntoEntity(site, entity[1..], tag);
      other := Identity(site + ":", entity[1..], tag);
    } else if StartsWithColon(tag) {
      assert tag == ":" + tag[1..];
      ColonIntoTag(site, entity, tag[1..]);
      other := Identity(site, entity + ":", tag[1..]);
    } else if !NoSeparator(tag) {
      var k :| 0 <= k < |tag| && SeparatorAt(tag, k);
      SplitHere(tag, k);
      SeparatorOutOfTag(site, entity, tag[..k], tag[k + 2..]);
      other := Identity(site, entity + SEPARATOR + tag[..k], tag[k + 2..]);
    } else if !Clean(site) {
      other := SiteTwin(id);
    } else {
      other := EntityTwin(id);
    }
  }

  lemma SiteTwin(id: Identity) returns (other: Identity)
    requires !Clean(id.site)
    ensures other != id && ChannelName(other) == ChannelName(id)
  {
    var site := id.site;
    CleanIff(site);
    if !NoSeparator(site) {
      var k :| 0 <= k < |site| && SeparatorAt(site, k);
      SplitHere(site, k);
      SeparatorOutOfSite(site[..k], site[k + 2..], id.entity, id.tag);
      other := Identity(site[..k], site[k + 2..] + SEPARATOR + id.entity, id.tag);
    } else {
      var k := |site| - 1;
      assert site == site[..k] + ":";
      ColonIntoEntity(site[..k], id.entity, id.tag);
      other := Identity(site[..k], ":" + id.entity, id.tag);
    }
  }

  lemma EntityTwin(id: Identity) returns (other: Identity)
    requires !Clean(id.entity)
    ensures other != id && ChannelName(other) == ChannelName(id)
  {
    var entity := id.entity;
    CleanIff(entity);
    if !NoSeparator(entity) {
      var k :| 0 <= k < |entity| && SeparatorAt(entity, k);
      SplitHere(entity, k);
      SeparatorOutOfEntity(id.site, entity[..k], entity[k + 2..], id.tag);
      other := Identity(id.site, entity[..k], entity[k + 2..] + SEPARATOR + id.tag);
    } else {
      var k := |entity| - 1;
      assert entity == entity[..k] + ":";
      ColonIntoTag(id.site, entity[..k], id.tag);
      other := Identity(id.site, entity[..k], ":" + id.tag);
    }
  }

  ghost predicate Alone(id: Identity) {
    forall other :: ChannelName(other) == ChannelName(id) ==> other == id
  }

  /** An identity shares its channel name with no other exactly when no colon of its parts can be read as part
      of a separator. */
  lemma AloneIffUnmistakable(id: Identity)
    ensures Alone(id) <==> Unmistakable(id)
  {
    if Unmistakable(id) {
      forall other | ChannelName(other) == ChannelName(id) ensures other == id { UnmistakableIsAlone(id, other); }
    } else {
      var other := TwinOf(id);
    }
  }

  /** Two identities on one channel. */
  lemma NamesCollide()
    ensures ChannelName(Identity("a", "b::c", "t")) == ChannelName(Identity("a", "b", "c::t"))
  {
  }
}
