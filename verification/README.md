# Design-pattern exercises, modelled in Dafny

This project models five practice exercises from the `LLD` directory of an interview
guide. Each exercise is a small Java program that demonstrates one object-oriented
pattern. Every exercise becomes one Dafny module of immutable datatypes and pure
functions, with lemmas about them:

- `MediaPlayer` (`media_player.dfy`): the State pattern. A media player has the states
  Stopped, Playing and Paused and the buttons play, pause and stop. Each state class
  becomes a constructor of `PlayerState`. The dispatch through `MediaPlayer` becomes the
  total transition function `Step`. Every printed line becomes a `Line` value that the
  press returns; `Text` gives its exact console text.
- `Atm` (`atm.dfy`): the Chain of Responsibility. An ATM splits a withdrawal into notes
  of 2000, then 500, then 100. Each handler takes as many notes as fit and passes the
  rest on. A non-zero final remainder yields "Amount cannot be fully dispensed in
  available denominations." The linked handler objects become a fold (`Chain`) over the
  ordered denomination list. Each handler leaves one `HandlerStep` in the plan.
- `StockMarket` (`stock_market.dfy`): the Observer pattern. A `Stock` holds a name, a
  price and a list of observers. Observers and prices are type parameters the model
  never looks inside. Each `update` call on an observer becomes one `Notification` in
  the output.
- `Proxy` (`proxy.dfy`): the protection and lazy-initialisation proxy. A
  `DatabaseProxy` has a fixed role (possibly Java `null`, so `Option<string>`) and a
  flag that says whether the real database exists. What the calls print becomes a trace
  of `Event`s.
- `Library` (`library.dfy`): the Null Object pattern. A `Borrower` is either
  `RegisteredUser(name)` or the single `NoBorrower`. A Java `null` argument is `None`.

`Wrappers` (`wrappers.dfy`) holds `Option` and `Result`.

The ATM exercise leaves its handler bodies as `TODO`s. Its model follows the contract
in the file's header comment and stub comments (lines 1-19, 34, 41, 48-49, 57). That
code says nothing about a negative amount. The model's own choice is to refuse one
before any note is handed out: `Atm.Withdraw` returns `Failure(NegativeAmount)`.

## Model

| member | source | states |
|---|---|---|
| `MediaPlayer.NewPlayer` | LLD/StatePattern_Practice.java:110-114 | A new player starts in Stopped and prints "Media Player initialized.", which is not a refusal. |
| `MediaPlayer.Step` | LLD/StatePattern_Practice.java:47-104 | A press changes the state exactly when the printed line is not a refusal ("Already ..."/"Cannot ..."). A refusal names the state the player stays in ("Already stopped.", "Already playing.", "Already paused."), except that pausing a stopped player prints "Cannot pause. Player is stopped.". A real move prints its transition: "Starts playing." from Stopped and "Resumes playing." from Paused, "Pauses video." into Paused, and "Stops video." into Stopped. Stop always ends in Stopped, play always ends in Playing, and pause never ends in Playing. |
| `MediaPlayer.Run` | LLD/StatePattern_Practice.java:116-130 | Pressing a sequence of buttons prints one line per press. If every line is a refusal, the player ends where it started. |
| `MediaPlayer.OnlyPlayingPauses` | LLD/StatePattern_Practice.java:55-97 | Pause leaves the player Paused exactly when it was not Stopped. The only real pause transition is Playing to Paused. |
| `MediaPlayer.PressTwiceIsPressOnce` | LLD/StatePattern_Practice.java:47-104 | Pressing the same button twice has the effect of pressing it once. The second press only prints a refusal. |
| `MediaPlayer.RunAppend` | LLD/StatePattern_Practice.java:116-130 | Running two sessions back to back equals one session over the joined presses, in both the final state and the printed lines. |
| `MediaPlayer.EndingWithStopStops` | LLD/StatePattern_Practice.java:60-103 | Any session that ends with stop ends in Stopped, whatever the starting state. |
| `MediaPlayer.OnlyPauses` | LLD/StatePattern_Practice.java:55-97 | A run of pause presses keeps a Stopped player Stopped and otherwise ends in Paused. |
| `MediaPlayer.LastPlayOrStopDecides` | LLD/StatePattern_Practice.java:47-104 | The final state depends only on the last play or stop: Stopped after a stop, Playing after a final play, Paused if a pause follows that play. |
| `MediaPlayer.DemoSession` | LLD/StatePattern_Practice.java:137-159 | The demo presses play, pause, play, stop, pause on a new player. It ends in Stopped, and the last line is "Cannot pause. Player is stopped." |
| `Atm.Chain` | LLD/ATM_Chain_Practice.java:5-14 | The handlers run in list order, one step each. Notes handed out plus the leftover equal the request. Every handler passes on less than one of its own notes. |
| `Atm.ChainIsGreedySplit` | LLD/ATM_Chain_Practice.java:7-10 | `Chain` meets the relational statement of the requirements. Each handler splits what it receives into its notes plus what it passes on, and passes on less than one note. |
| `Atm.GreedySplitIsUnique` | LLD/ATM_Chain_Practice.java:7-10 | Any plan that meets the requirements equals the one `Chain` computes. So every count is the greedy, maximal one. |
| `Atm.Dispensed` | LLD/ATM_Chain_Practice.java:8-10 | Every reported batch has a positive count, and there are no more batches than handlers. |
| `Atm.DispensedReportsDispensingHandlers` | LLD/ATM_Chain_Practice.java:8-10 | Every handler that handed out at least one note reports its own denomination and count, and every reported batch is such a handler's. |
| `Atm.DispensedInChainOrder` | LLD/ATM_Chain_Practice.java:7-10 | When the handlers run from the largest note to the smallest, the reported batches keep that order. |
| `Atm.DispensedKeepsValue` | LLD/ATM_Chain_Practice.java:8-10 | Dropping handlers that handed out nothing does not change the value paid out. |
| `Atm.Withdraw` | LLD/ATM_Chain_Practice.java:21-51 | A negative request is refused. Otherwise notes plus leftover equal the request, the leftover is below 100, and the failure line appears exactly when the leftover is non-zero. The batches come in the order 2000, 500, 100, and each uses one of those denominations. |
| `Atm.Report.FailureMessage` | LLD/ATM_Chain_Practice.java:11-13 | The line "Amount cannot be fully dispensed in available denominations." is reported exactly when part of the request is left over. |
| `Atm.FullyDispensedIffMultipleOfHundred` | LLD/ATM_Chain_Practice.java:6-14 | With 2000, 500 and 100, the leftover is the request modulo 100. So a request is paid in full exactly when it is a multiple of 100. |
| `Atm.AtmChainUnfolded` | LLD/ATM_Chain_Practice.java:31-50 | The three handlers in the order 2000, 500, 100, each taking what fits into what the previous one passed on. |
| `Atm.AtmGreedySplit` | LLD/ATM_Chain_Practice.java:7-10 | Three note counts and remainders that satisfy the division conditions form a plan that meets the requirements. |
| `Atm.WithdrawFollowsGreedySplit` | LLD/ATM_Chain_Practice.java:7-14 | A plan that meets the requirements is exactly what a withdrawal reports. |
| `Atm.Withdraw3700` | LLD/ATM_Chain_Practice.java:7-10 | 3700 is paid as 1×2000, 3×500 and 2×100, with nothing left over. |
| `Atm.Withdraw3750` | LLD/ATM_Chain_Practice.java:11-13 | 3750 is paid as 1×2000, 3×500 and 2×100. The remaining 50 produces the "cannot be fully dispensed" line. |
| `Atm.Withdraw3800` | LLD/ATM_Chain_Practice.java:59-60 | 3800 is paid in full as 1×2000, 3×500 and 3×100. |
| `Atm.Withdraw3850` | LLD/ATM_Chain_Practice.java:62-63 | 3850 is paid as 1×2000, 3×500 and 3×100, and 50 is left over. |
| `Atm.WithdrawBelowSmallestNote` | LLD/ATM_Chain_Practice.java:45-50 | A request below 100 hands out no notes and leaves the whole request over. It counts as fully dispensed only when it is 0. |
| `StockMarket.NewStock` | LLD/StockMarket_Observer.java:28-31 | A new stock has the given name and price and no subscribers. |
| `StockMarket.Subscribe` | LLD/StockMarket_Observer.java:39-41 | `subscribe` appends the observer at the end of the list, even when it is already there, and changes nothing else. |
| `StockMarket.RemoveFirst` | LLD/StockMarket_Observer.java:44-46 | `List.remove(Object)` shortens the list by one when the object occurs and leaves the list unchanged when it does not. |
| `StockMarket.RemoveFirstRemovesOne` | LLD/StockMarket_Observer.java:44-46 | `List.remove(Object)` takes out exactly one equal entry and nothing else (the multiset view). |
| `StockMarket.RemoveFirstCutsAtFirstOccurrence` | LLD/StockMarket_Observer.java:44-46 | The removed entry is the first occurrence. The entries before and after it keep their relative order. |
| `StockMarket.Unsubscribe` | LLD/StockMarket_Observer.java:44-46 | `unsubscribe` removes one matching entry and changes neither name nor price. It leaves the stock unchanged when the observer is absent. |
| `StockMarket.Notify` | LLD/StockMarket_Observer.java:49-53 | `notifyObservers` sends one notification per list entry, in list order, each with the stock's name and price. |
| `StockMarket.SetPrice` | LLD/StockMarket_Observer.java:33-36 | `setPrice` stores the new price and changes nothing else. It then notifies every entry once, in order, with the name and the new price. |
| `StockMarket.SetPriceNotifiesTheList` | LLD/StockMarket_Observer.java:33-53 | The notified observers are exactly the subscription list, in order. An observer is notified as often as it occurs in the list, and an empty list gives no notifications. |
| `StockMarket.SubscribedTwiceNotifiedTwice` | LLD/StockMarket_Observer.java:39-52 | An observer subscribed twice is notified twice per price change. |
| `StockMarket.SubscribeThenUnsubscribe` | LLD/StockMarket_Observer.java:39-46 | Subscribing a new observer and unsubscribing it again restores the stock. In every case the list keeps the same entries. |
| `StockMarket.NameNeverChanges` | LLD/StockMarket_Observer.java:24-53 | After any sequence of subscribe, unsubscribe and price changes, the name is the one given at construction, and every notification carries it. |
| `StockMarket.Demo` | LLD/StockMarket_Observer.java:88-107 | In the demo both observers hear of 155.0. After the e-mail alert unsubscribes, only the Robinhood app hears of 160.0. |
| `Proxy.NewProxy` | LLD/Proxy_Practice.java:40-42 | A new proxy keeps the given role and has not created the real database. |
| `Proxy.EnsureInitialized` | LLD/Proxy_Practice.java:62-66 | Afterwards the real database exists and the role is unchanged. A connection happens if and only if none existed before. |
| `Proxy.Select` | LLD/Proxy_Practice.java:45-49 | `select` reaches the real database for every role, connecting first exactly when there was no database. |
| `Proxy.Delete` | LLD/Proxy_Practice.java:52-60 | `delete` reaches the real database if and only if the role equals "ADMIN" ignoring case. Any other role gets only the access-denied event, and the proxy is left as it was, so no database is created. |
| `Proxy.Serve` | LLD/Proxy_Practice.java:36-66 | Over any sequence of calls the role never changes. The real database exists at the end exactly when it existed at the start or some call was forwarded. |
| `Proxy.HandleConnects` | LLD/Proxy_Practice.java:45-66 | One call connects exactly when it is forwarded by a proxy that has no real database yet. |
| `Proxy.ConnectsAtMostOnce` | LLD/Proxy_Practice.java:37-66 | Over any sequence of calls the real database is created at most once. It is never created by a proxy that has one, and it is created once if any call is forwarded. |
| `Proxy.CreatedBeforeFirstUse` | LLD/Proxy_Practice.java:45-66 | In every trace the real database is created before any select or delete reaches it. |
| `Proxy.HandleForwardsExactly` | LLD/Proxy_Practice.java:45-60 | A forwarded call is the optional connection followed by the database's answer. A denied call produces only the denial. |
| `Proxy.Demo` | LLD/Proxy_Practice.java:72-80 | USER connects, selects and is denied the delete. ADMIN connects, selects and deletes. |
| `Proxy.IsAdmin` | LLD/Proxy_Practice.java:54 | The role is an admin exactly when it is the five letters A, D, M, I, N in any letter case. A `null` role is never an admin. |
| `Proxy.AdminIgnoresCase` | LLD/Proxy_Practice.java:54 | Two roles that differ only in letter case are both admins or neither is. |
| `Proxy.AdminCheckExamples` | LLD/Proxy_Practice.java:54 | "admin" and "Admin" count as ADMIN. "ADMINS", the empty role and a `null` role do not. |
| `Library.GetName` | LLD/NullObject_Practice.java:16-45 | A registered user's name is the one given at construction. The null object's name is always "Available for borrowing". |
| `Library.GetInstance` | LLD/NullObject_Practice.java:33-40 | `getInstance` always returns the one `NoBorrower`. |
| `Library.NewBook` | LLD/NullObject_Practice.java:52-57 | The title is kept. A `null` borrower becomes the `NoBorrower` instance, and any other borrower is stored unchanged. |
| `Library.GetStatus` | LLD/NullObject_Practice.java:59-62 | The status is "Book: ", then the title, then the separator (a space, a vertical bar, a space and "Borrower: "), then the borrower's name, in exactly that layout. |
| `Library.NullIsTheNullObject` | LLD/NullObject_Practice.java:54-56 | Passing `null` builds the same book as passing `NoBorrower.getInstance()`, so the borrower is never null. |
| `Library.StatusDeterminesName` | LLD/NullObject_Practice.java:59-62 | For a fixed title, two statuses are equal exactly when the borrowers' names are equal. |
| `Library.DemoBorrowedBook` | LLD/NullObject_Practice.java:68-74 | "Design Patterns" lent to Rohit reports Rohit as borrower. |
| `Library.DemoAvailableBook` | LLD/NullObject_Practice.java:72-75 | "Java Basics" built with `null` reports "Available for borrowing". |

## Left out

- `LLD/StrategyPattern_Discount.java` is not modelled: all of its operations are `double` arithmetic.
- `LLD/CommandPattern_Practice.java` is not modelled: its commands and invoker are unimplemented stubs with no behaviour to state.
- `LLD/LogProcessor_Chain.java` is not modelled: it holds only a comment.
- Console output and the `main` drivers: printed lines become returned values (`Line`, `Notification`, `Event`), and each `main` becomes a demo lemma.
- The observers' own `update` bodies (the `MobileApp` and `EmailAlert` messages): their text depends on Java's rendering of a `double`. Each call is kept as a `Notification`.
- The text of the proxy's and real database's console lines: the model keeps what they report (`Connected`, `Selected(id)`, `Deleted(id)`, `AccessDenied(role)`), not the formatted strings.
- `Proxy.IsAdmin`: the case-insensitive comparison folds only ASCII letters. Java's `equalsIgnoreCase` also folds other Unicode letters.
- `StockMarket.Unsubscribe`: the model matches observers by value. Java's `remove` uses `equals`, which these observer classes inherit from `Object`, so it matches by identity; the type parameter `O` stands for that identity. The demo's `Observer` datatype compares by value, so two distinct Java observers with the same app name would be one observer there. The demo's two observers differ in value, so nothing in it depends on this.
- `StockMarket.Notify`: a `null` observer is not modelled. Java accepts `subscribe(null)`, and a later `setPrice` stores the price and then throws `NullPointerException` when the loop reaches that entry, after notifying only the entries before it. The model notifies every entry.
- Prices are an opaque type parameter, so no floating-point behaviour is modelled.
- `Atm.Withdraw`: the handlers are unimplemented and say nothing about a negative amount. The model refuses one with `Failure(NegativeAmount)`, which is its own choice.
- `Atm.Withdraw`: the amount is an unbounded integer. Java's `int` bounds are not modelled; the greedy split only divides, so it cannot overflow.
- `Library.NewBook`: a `null` title or a `null` user name is not modelled. Java would print "null" for them.
- `Library.DemoBorrowedBook` and `Library.DemoAvailableBook` state the status as the concatenation of its parts, not as one literal string.
