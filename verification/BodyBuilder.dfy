/** Building the body of one request in a buffer: from a store, item by item, or from a single item. */
module BodyBuilder {
  import opened Core
  import opened Json
  import opened Items
  import opened ItemJson
  import opened ItemSize
  import opened ItemTuple
  import opened Multipart
  import opened Receiver
  import opened Exchange
  import opened Upload

  // ----- one item -----

  /** What `multipart_get_tuple_size` computes. */
  method TupleSizeOf(item: Cargo) returns (size: nat)
    ensures size == ItemKind().EstimateOf(item)
  {
    size := GetItemSize(item);
    size := MULTIPART_BASE_SIZE + size + |ContentType(item)|;
  }

  /** Builds the meta data and, unless the payload is read by a callback, the payload. */
  method GetSource(item: Cargo, conditions: Conditions) returns (source: Source)
    ensures source == ItemKind().SourceOf(item, conditions)
  {
    var meta := JsonFromItemMeta(item);
    var payload;
    if item.File? {
      payload := FromCallback(Content(item), conditions.chunks);
    } else if item.CustomData? {
      payload := FromCallback(Content(item), []);
    } else {
      var json := JsonFromItemPayload(item);
      payload := FromJson(Obtain(conditions.payload, Print(json.value)));
    }
    source := Source(conditions.sub, Obtain(conditions.meta, Print(meta.value)), ContentType(item), payload);
  }

  /** Writes an item, given by what was built from it, into the space left at position. */
  method AddItemToBuffer(buffer: array<char>, position: nat, size: nat, source: Source, boundary: Boundary,
                         ghost part: Option<Part>)
    returns (code: Code, remaining: nat, ghost end: nat)
    requires position + size <= buffer.Length && part == source.ToPart()
    modifies buffer
    ensures position <= end <= buffer.Length && end + remaining == position + size
    ensures code == WriteCode(source, size)
    ensures code == Ok <==> part.Some? && TupleLength(part.value) <= size
    ensures code == Ok ==>
              end == position + TupleLength(part.value) && buffer[..][position..end] == Tuple(boundary, part.value)
    ensures code != Ok ==> end == position
    ensures buffer[..][..position] == old(buffer[..])[..position]
    ensures buffer[..][position + size..] == old(buffer[..])[position + size..]
  {
    if part.Some? {
      TupleSize(boundary, part.value);
    }
    code, remaining := AddTuple(buffer, position, size, source, boundary);
    end := position + size - remaining;
  }

  // ----- the text of a body -----

  lemma {:induction false} TuplesSnoc(boundary: Boundary, parts: seq<Part>, part: Part)
    ensures Tuples(boundary, parts + [part]) == Tuples(boundary, parts) + Tuple(boundary, part)
    ensures TuplesLength(parts + [part]) == TuplesLength(parts) + TupleLength(part)
  {
    if parts == [] {
      assert [part][1..] == [];
      assert Tuple(boundary, part) + "" == Tuple(boundary, part);
    } else {
      assert (parts + [part])[1..] == parts[1..] + [part];
      TuplesSnoc(boundary, parts[1..], part);
    }
  }

  lemma PartsSnoc<T>(carried: seq<Carried<T>>, c: Carried<T>)
    ensures Parts(carried + [c]) == Parts(carried) + [c.part]
  {
  }

  /** The text starts with the tuples of what has been carried so far, and nothing else is in use. */
  ghost predicate Holds<T>(text: string, boundary: Boundary, carried: seq<Carried<T>>, used: nat) {
    && used == TuplesLength(Parts(carried)) <= |text|
    && text[..used] == Tuples(boundary, Parts(carried))
  }

  lemma HoldsMore<T>(before: string, after: string, boundary: Boundary, carried: seq<Carried<T>>, used: nat,
                     c: Carried<T>, now: nat)
    requires Holds(before, boundary, carried, used)
    requires now == used + TupleLength(c.part) <= |after|
    requires after[..used] == before[..used] && after[used..now] == Tuple(boundary, c.part)
    ensures Holds(after, boundary, carried + [c], now)
  {
    PartsSnoc(carried, c);
    TuplesSnoc(boundary, Parts(carried), c.part);
    assert after[..now] == after[..used] + after[used..now];
  }

  lemma HoldsStill<T>(before: string, after: string, boundary: Boundary, carried: seq<Carried<T>>, used: nat)
    requires Holds(before, boundary, carried, used)
    requires used <= |after| && after[..used] == before[..used]
    ensures Holds(after, boundary, carried, used)
  {
  }

  /** A closed body is the text of a delivery. */
  lemma Closed<T>(before: string, after: string, boundary: Boundary, carried: seq<Carried<T>>, used: nat, size: nat)
    requires Holds(before, boundary, carried, used) && |Closing(boundary)| == MULTIPART_CLOSE_LENGTH
    requires size == used + MULTIPART_CLOSE_LENGTH <= |before|
    requires after == Overwrite(before, used, Closing(boundary))
    ensures after[..size] == Delivery(boundary, carried).Text()
  {
    assert after[..size] == before[..used] + Closing(boundary);
  }

  // ----- the body of a single item -----

  lemma OneCarried<T>(c: Carried<T>)
    ensures Parts([c]) == [c.part] && TuplesLength(Parts([c])) == TupleLength(c.part)
  {
    assert [c.part][1..] == [];
  }

  /** Ends the body behind a single item. */
  method CloseItem<T>(buffer: array<char>, used: nat, remaining: nat, boundary: Boundary, ghost c: Carried<T>)
    returns (code: Code, bodySize: nat)
    requires used + remaining == buffer.Length && Holds(buffer[..], boundary, [c], used)
    modifies buffer
    ensures code == if TupleLength(c.part) + MULTIPART_CLOSE_LENGTH <= buffer.Length then Ok else Fail
    ensures code == Ok ==>
              && bodySize == TupleLength(c.part) + MULTIPART_CLOSE_LENGTH
              && buffer[..][..bodySize] == Delivery(boundary, [c]).Text()
  {
    OneCarried(c);
    ghost var text := buffer[..];
    var left: nat;
    bodySize := 0;
    code, left := CloseBody(buffer, used, remaining, boundary);
    if code == Ok {
      bodySize := buffer.Length - left;
      Closed(text, buffer[..], boundary, [c], used, bodySize);
    } else {
      code := Fail;
    }
  }

  /** How a body for a single item ends in a buffer of the given size: well, if the tuple fits with the
      closing delimiter behind it; otherwise with the writer's error. */
  function BodyCode(source: Source, size: nat): Code {
    match source.ToPart()
    case Some(part) => if TupleLength(part) + MULTIPART_CLOSE_LENGTH <= size then Ok else Fail
    case None => WriteCode(source, size)
  }

  /** The same in plain terms, for a size that leaves room for the fixed pieces. */
  lemma BodyCodeIs(source: Source, size: nat)
    requires size >= 271
    ensures BodyCode(source, size)
            == if source.sub.Failure? then source.sub.code
               else if source.meta.Failure? then source.meta.code
               else
                 match source.payload
                 case FromJson(Failure(code)) =>
                   if 219 + |source.meta.value| + |source.contentType| < size then code else Fail
                 case _ => if 24 + TupleLength(source.ToPart().value) <= size then Ok else Fail
  {
  }

  /** Fills a buffer of the estimated size. */
  method FillBodyWithItem(item: Cargo, id: nat, buffer: array<char>, boundary: Boundary, conditions: Conditions)
    returns (code: Code, bodySize: nat)
    modifies buffer
    ensures var part := ItemKind().PartOf(item, conditions);
            && code == BodyCode(ItemKind().SourceOf(item, conditions), buffer.Length)
            && (code == Ok ==>
                  && part.Some?
                  && bodySize == TupleLength(part.value) + MULTIPART_CLOSE_LENGTH
                  && buffer[..][..bodySize] == Delivery(boundary, [Carried(id, item, part.value)]).Text())
  {
    ghost var part := ItemKind().PartOf(item, conditions);
    var remaining: nat;
    ghost var end;
    bodySize := 0;
    var source := GetSource(item, conditions);
    code, remaining, end := AddItemToBuffer(buffer, 0, buffer.Length, source, boundary, part);
    if code == Ok {
      var used: nat := buffer.Length - remaining;
      ghost var c, text := Carried(id, item, part.value), buffer[..];
      HoldsMore(text, text, boundary, [], 0, c, used);
      assert [] + [c] == [c];
      code, bodySize := CloseItem(buffer, used, remaining, boundary, c);
    }
  }

  /** The result of preparing the body for one item: the first error that occurs. */
  function ItemCode(source: Source, estimate: nat, max: nat, hasMemory: bool): Code {
    if MULTIPART_CLOSE_LENGTH + estimate > max then ItemExceedsMaxHttpRequestSize
    else if !hasMemory then OutOfMemory
    else BodyCode(source, MULTIPART_CLOSE_LENGTH + estimate)
  }

  /** Prepares the request body for one item.  It succeeds exactly if the item may be sent, there is
      memory, all its parts exist, and its text does not outgrow the estimate. */
  method PrepareBodyForItem(item: Cargo, id: nat, max: nat, boundary: Boundary, hasMemory: bool, conditions: Conditions)
    returns (code: Code, body: array?<char>, bodySize: nat)
    ensures var part := ItemKind().PartOf(item, conditions);
            && code == ItemCode(ItemKind().SourceOf(item, conditions), ItemKind().EstimateOf(item), max, hasMemory)
            && (code == ItemExceedsMaxHttpRequestSize <==> !Eligible(ItemKind(), item, max))
            && (code == Ok <==> Eligible(ItemKind(), item, max) && hasMemory && part.Some?
                                && TupleLength(part.value) <= ItemKind().EstimateOf(item))
            && (code == Ok ==>
                  && body != null && fresh(body) && bodySize <= body.Length
                  && bodySize == TupleLength(part.value) + MULTIPART_CLOSE_LENGTH <= max
                  && body[..][..bodySize] == Delivery(boundary, [Carried(id, item, part.value)]).Text())
            && (code != Ok ==> body == null)
  {
    body := null;
    bodySize := TupleSizeOf(item);
    bodySize := bodySize + MULTIPART_CLOSE_LENGTH;
    if bodySize > max {
      return ItemExceedsMaxHttpRequestSize, null, bodySize;
    }
    if !hasMemory {
      return OutOfMemory, null, 0;
    }
    IncompleteHasError(ItemKind().SourceOf(item, conditions));
    var buffer := new char[bodySize];
    code, bodySize := FillBodyWithItem(item, id, buffer, boundary, conditions);
    if code == Ok {
      body := buffer;
    } else {
      bodySize := 0;
    }
  }
}
